/** Best-first search over the link lists of one level, with deletion marks, a
    document filter and a score window, and the visited tags it relies on. */
module HnswSearch {
  import opened Heaps
  import opened Lists
  import opened HnswGraph

  type Tag = t: nat | t < 0x1_0000

  /** One visited array. An entry equal to `curV` means visited in this search. */
  class VisitedList {
    var curV: Tag
    const mass: array<Tag>

    ghost predicate Valid()
      reads this, mass
    {
      forall i :: 0 <= i < mass.Length ==> mass[i] <= curV
    }

    ghost function Seen(): (s: set<nat>)
      reads this, mass
      ensures forall i: nat :: i in s <==> i < mass.Length && mass[i] == curV
    {
      set i: nat | i < mass.Length && mass[i] == curV
    }

    // The array starts with arbitrary contents; the first Reset clears it.
    constructor (n: nat)
      ensures Valid() && fresh(mass) && mass.Length == n
    {
      mass := new Tag[n];
      curV := 0xffff;
    }

    /** The next search starts with nothing visited, also when the tag wraps. */
    method Reset()
      requires Valid()
      modifies this, mass
      ensures Valid() && Seen() == {}
    {
      if curV < 0xffff {
        curV := curV + 1;
      } else {
        for i := 0 to mass.Length
          invariant forall j :: 0 <= j < i ==> mass[j] == 0
        {
          mass[i] := 0;
        }
        curV := 1;
      }
    }

    method Visit(i: nat)
      requires Valid() && i < mass.Length
      modifies mass
      ensures Valid() && Seen() == old(Seen()) + {i}
    {
      mass[i] := curV;
    }
  }

  class VisitedListPool {
    var lists: seq<VisitedList>
    const numElements: nat

    ghost function Footprint(): (r: set<object>)
      reads this
      ensures forall v :: v in lists ==> v in r && v.mass in r
    {
      (set v: VisitedList | v in lists :: v as object)
      + (set v: VisitedList | v in lists :: v.mass as object)
    }

    ghost predicate Valid()
      reads this, Footprint()
    {
      && (forall i :: 0 <= i < |lists| ==> lists[i].Valid() && lists[i].mass.Length == numElements)
      && (forall i, j :: 0 <= i < j < |lists| ==>
            lists[i] != lists[j] && lists[i].mass != lists[j].mass)
    }

    constructor (n: nat)
      ensures Valid() && fresh(Footprint()) && numElements == n
    {
      var v := new VisitedList(n);
      lists := [v];
      numElements := n;
    }

    /** Takes a list out of the pool, or makes one; nothing is visited in it. */
    method GetFreeVisitedList() returns (v: VisitedList)
      requires Valid()
      modifies this, Footprint()
      ensures Valid() && v.Valid() && v.Seen() == {} && v.mass.Length == numElements
      ensures v !in lists && v.mass !in Footprint() && v !in Footprint()
      ensures Footprint() <= old(Footprint())
      ensures fresh(({v, v.mass}) - old(Footprint()))
      ensures lists == if old(lists) == [] then [] else old(lists)[1..]
      ensures old(lists) != [] ==> v == old(lists)[0]
    {
      if |lists| > 0 {
        v := TakeFirst();
      } else {
        v := new VisitedList(numElements);
      }
      v.Reset();
    }

    method TakeFirst() returns (v: VisitedList)
      requires Valid() && |lists| > 0
      modifies this
      ensures Valid() && v.Valid() && v.mass.Length == numElements && {v, v.mass} <= old(Footprint())
      ensures v !in lists && v.mass !in Footprint() && v !in Footprint() && Footprint() <= old(Footprint())
      ensures lists == old(lists)[1..] && v == old(lists)[0]
    {
      v := lists[0];
      assert v in lists;
      lists := lists[1..];
      assert forall x :: x in lists ==> x in old(lists);
    }

    method ReleaseVisitedList(v: VisitedList)
      requires Valid() && v.Valid() && v.mass.Length == numElements
      requires v !in lists && v.mass !in Footprint()
      modifies this
      ensures Valid() && lists == [v] + old(lists)
    {
      lists := [v] + lists;
    }
  }

  /** A query point and what may be returned for it; `inf` is the largest distance there is. */
  datatype Query = Query(dist: nat -> real, marked: set<nat>, validDoc: nat -> bool,
                         validScore: real -> bool, innerProduct: bool, inf: real) {
    /** The score window applies to 1 - dist under the inner product metric. */
    function Score(n: nat): real {
      if innerProduct then 1.0 - dist(n) else dist(n)
    }

    /** Unmarked, passes the document filter, and has a score inside the window. */
    predicate Eligible(n: nat) {
      n !in marked && validDoc(n) && validScore(Score(n))
    }
  }

  /** A search on one level of a graph, from an entry node, for the `ef` closest. */
  datatype Task = Task(adj: Adj, layer: nat, ep: nat, ef: nat, q: Query) {
    ghost predicate On(n: nat) {
      HasLevel(adj, n, layer)
    }

    ghost predicate Links(a: nat, b: nat) {
      On(a) && b in adj[a][layer]
    }

    /** The entry node, or the target of some link. */
    ghost predicate Entered(n: nat) {
      n == ep || exists a :: Links(a, n)
    }
  }

  /** top_candidates, candidate_set and lowerBound. */
  datatype Frontier = Frontier(top: set<nat>, cand: set<nat>, bound: real)

  ghost predicate IsBound(top: set<nat>, key: nat -> real, bound: real) {
    (exists x :: x in top && key(x) == bound) && forall x :: x in top ==> key(x) <= bound
  }

  /** `ef` nodes, none farther than `n`, are held. */
  ghost predicate Beaten(t: Task, top: set<nat>, n: nat) {
    |top| == t.ef && NoFarther(top, n, t.q.dist)
  }

  /** `log` lists the nodes whose distance was evaluated, each once; the candidates and
      the nodes `done`, taken off the candidate set, are among them. */
  ghost predicate Tracked(t: Task, cand: set<nat>, log: seq<nat>, done: set<nat>) {
    && NoDup(log) && t.On(t.ep) && (forall n :: n in log ==> t.On(n) && t.Entered(n))
    && (t.ep in log <==> t.ep !in t.q.marked)
    && cand !! done && cand + done <= Elements(log) + {t.ep}
  }

  /** The held nodes are the closest eligible ones among those evaluated. */
  ghost predicate Ranked(t: Task, top: set<nat>, bound: real, log: seq<nat>) {
    && top <= Elements(log) && |top| <= t.ef
    && (forall n :: n in top ==> t.q.Eligible(n))
    && (top != {} ==> IsBound(top, t.q.dist, bound))
    && (forall n :: n in log && n !in top && t.q.Eligible(n) ==> Beaten(t, top, n))
  }

  /** An evaluated node that was not queued is beaten by the held ones. */
  ghost predicate Queued(t: Task, top: set<nat>, cand: set<nat>, log: seq<nat>, done: set<nat>) {
    && top <= cand + done
    && forall n :: n in log && n !in cand && n !in done ==> Beaten(t, top, n)
  }

  /** While no node is held the bound is the largest distance of an unmarked node evaluated so
      far, so that the search goes on. */
  ghost predicate Widened(t: Task, top: set<nat>, bound: real, log: seq<nat>) {
    top == {} ==>
      && (forall n :: n in log && n !in t.q.marked ==> t.q.dist(n) <= bound)
      && (t.ep in t.q.marked ==> t.q.inf <= bound)
      && ((t.ep in t.q.marked && bound == t.q.inf) || exists n :: n in log && n !in t.q.marked && t.q.dist(n) == bound)
  }

  /** What a search keeps. */
  ghost predicate Sound(t: Task, f: Frontier, log: seq<nat>, done: set<nat>) {
    && Tracked(t, f.cand, log, done) && t.ep in f.cand + done
    && Ranked(t, f.top, f.bound, log) && Widened(t, f.top, f.bound, log)
    && Queued(t, f.top, f.cand, log, done)
  }

  ghost predicate Expanded(t: Task, log: seq<nat>, n: nat) {
    t.On(n) ==> forall x :: x in t.adj[n][t.layer] ==> x in log || x == t.ep
  }

  lemma TrackMore(t: Task, cand: set<nat>, log: seq<nat>, done: set<nat>, c: nat)
    requires Tracked(t, cand, log, done) && t.On(c) && t.Entered(c) && c !in log && c != t.ep
    ensures Tracked(t, cand + {c}, log + [c], done)
  {
    Appended(log, c);
  }

  lemma SoundTracked(t: Task, f: Frontier, log: seq<nat>, done: set<nat>)
    requires Sound(t, f, log, done)
    ensures Tracked(t, f.cand, log, done)
  {
  }

  /** A node that is not even queued: `ef` no farther ones are held. */
  lemma DiscardStep(t: Task, f: Frontier, log: seq<nat>, done: set<nat>, c: nat)
    requires Sound(t, f, log, done) && t.On(c) && t.Entered(c) && c !in log && c != t.ep && t.ef > 0
    requires |f.top| >= t.ef && f.bound <= t.q.dist(c)
    ensures Sound(t, f, log + [c], done)
  {
    Appended(log, c);
    assert NoFarther(f.top, c, t.q.dist);
  }

  lemma QueueIneligible(t: Task, f: Frontier, log: seq<nat>, done: set<nat>, c: nat, bound: real)
    requires Sound(t, f, log, done) && t.On(c) && t.Entered(c) && c !in log && c != t.ep
    requires !t.q.Eligible(c)
    requires bound == if f.top == {} && c !in t.q.marked && t.q.dist(c) > f.bound then t.q.dist(c) else f.bound
    ensures Sound(t, Frontier(f.top, f.cand + {c}, bound), log + [c], done)
  {
    Appended(log, c);
    WidenMore(t, f.top, f.bound, log, c, bound);
  }

  lemma WidenMore(t: Task, top: set<nat>, was: real, log: seq<nat>, c: nat, bound: real)
    requires Widened(t, top, was, log) && c !in log
    requires bound == if top == {} && c !in t.q.marked && t.q.dist(c) > was then t.q.dist(c) else was
    ensures Widened(t, top, bound, log + [c])
  {
    if top == {} {
      assert c in log + [c];
      if n :| n in log && n !in t.q.marked && t.q.dist(n) == was {
        assert n in log + [c];
      }
    }
  }

  lemma QueueFits(t: Task, f: Frontier, log: seq<nat>, done: set<nat>, c: nat, bound: real)
    requires Sound(t, f, log, done) && t.On(c) && t.Entered(c) && c !in log && c != t.ep
    requires t.q.Eligible(c) && |f.top| < t.ef && IsBound(f.top + {c}, t.q.dist, bound)
    ensures Sound(t, Frontier(f.top + {c}, f.cand + {c}, bound), log + [c], done)
  {
    Appended(log, c);
    TrackMore(t, f.cand, log, done, c);
    forall n | n in log + [c] && n !in f.top + {c} ensures !t.q.Eligible(n) {
      assert n in log && !Beaten(t, f.top, n);
    }
    forall n | n in log + [c] && n !in f.cand + {c} ensures n in done {
      assert n in log && !Beaten(t, f.top, n);
    }
  }

  /** Replacing the farthest of a full top by a closer node beats what was beaten. */
  lemma ReplaceBeats(t: Task, top: set<nat>, bound: real, c: nat, x: nat)
    requires |top| == t.ef > 0 && c !in top && t.q.dist(c) < bound
    requires IsBound(top, t.q.dist, bound) && IsFarthest(top + {c}, t.q.dist, x)
    ensures |top + {c} - {x}| == t.ef && x in top
    ensures forall n :: Beaten(t, top, n) ==> Beaten(t, top + {c} - {x}, n)
    ensures Beaten(t, top + {c} - {x}, x)
  {
    var key := t.q.dist;
    var m :| m in top && key(m) == bound;
    assert key(m) <= key(x);
    forall n | Beaten(t, top, n) ensures Beaten(t, top + {c} - {x}, n) {
      assert key(m) <= key(n);
    }
  }

  lemma QueueReplaces(t: Task, f: Frontier, log: seq<nat>, done: set<nat>, c: nat, x: nat,
                      bound: real)
    requires Sound(t, f, log, done) && t.On(c) && t.Entered(c) && c !in log && c != t.ep && t.ef > 0
    requires t.q.Eligible(c) && |f.top| == t.ef && f.bound > t.q.dist(c)
    requires IsFarthest(f.top + {c}, t.q.dist, x) && IsBound(f.top + {c} - {x}, t.q.dist, bound)
    ensures Sound(t, Frontier(f.top + {c} - {x}, f.cand + {c}, bound), log + [c], done)
  {
    SoundParts(t, f, log, done);
    hide Ranked, Queued, Tracked;
    TrackMore(t, f.cand, log, done, c);
    RankReplaces(t, f, log, c, x, bound);
    TakeReplaces(t, f, log, done, c, x);
  }

  lemma SoundParts(t: Task, f: Frontier, log: seq<nat>, done: set<nat>)
    requires Sound(t, f, log, done)
    ensures Tracked(t, f.cand, log, done) && Ranked(t, f.top, f.bound, log) && Queued(t, f.top, f.cand, log, done)
    ensures t.ep in f.cand + done
  {
  }

  lemma RankReplaces(t: Task, f: Frontier, log: seq<nat>, c: nat, x: nat, bound: real)
    requires Ranked(t, f.top, f.bound, log) && c !in log && t.ef > 0
    requires t.q.Eligible(c) && |f.top| == t.ef && f.bound > t.q.dist(c)
    requires IsFarthest(f.top + {c}, t.q.dist, x) && IsBound(f.top + {c} - {x}, t.q.dist, bound)
    ensures Ranked(t, f.top + {c} - {x}, bound, log + [c])
  {
    hide Beaten;
    ReplaceBeats(t, f.top, f.bound, c, x);
    assert Elements(log + [c]) == Elements(log) + {c};
  }

  lemma TakeReplaces(t: Task, f: Frontier, log: seq<nat>, done: set<nat>, c: nat, x: nat)
    requires Queued(t, f.top, f.cand, log, done) && Ranked(t, f.top, f.bound, log) && c !in log && t.ef > 0
    requires |f.top| == t.ef && f.bound > t.q.dist(c) && IsFarthest(f.top + {c}, t.q.dist, x)
    ensures Queued(t, f.top + {c} - {x}, f.cand + {c}, log + [c], done)
  {
    hide Beaten;
    ReplaceBeats(t, f.top, f.bound, c, x);
  }

  /** The distance of the farthest held node. */
  method Top(top: set<nat>, key: nat -> real) returns (bound: real)
    requires top != {}
    ensures IsBound(top, key, bound)
  {
    var x, _ := PopFarthest(top, key);
    bound := key(x);
  }

  /** One newly seen node: queued for expansion unless `ef` no farther ones are held,
      held when eligible, and the farthest held one dropped when there are too many. */
  method Evaluate(t: Task, f: Frontier, c: nat, ghost log: seq<nat>, ghost done: set<nat>)
    returns (r: Frontier)
    requires Sound(t, f, log, done) && t.On(c) && t.Entered(c) && c !in log && c != t.ep && t.ef > 0
    ensures Sound(t, r, log + [c], done)
    ensures r.cand == f.cand || r.cand == f.cand + {c}
  {
    var dist := t.q.dist(c);
    if !(|f.top| < t.ef || f.bound > dist) {
      DiscardStep(t, f, log, done, c);
      return f;
    }
    if !t.q.Eligible(c) {
      var bound := if c !in t.q.marked && dist > f.bound then dist else f.bound;
      if f.top != {} {
        bound := f.bound;
      }
      QueueIneligible(t, f, log, done, c, bound);
      return Frontier(f.top, f.cand + {c}, bound);
    }
    var top := f.top + {c};
    if |top| > t.ef {
      var x, rest := PopFarthest(top, t.q.dist);
      var bound := Top(rest, t.q.dist);
      QueueReplaces(t, f, log, done, c, x, bound);
      r := Frontier(rest, f.cand + {c}, bound);
    } else {
      var bound := Top(top, t.q.dist);
      QueueFits(t, f, log, done, c, bound);
      r := Frontier(top, f.cand + {c}, bound);
    }
  }

  /** The nodes of the graph not yet seen. */
  ghost function Unseen(t: Task, log: seq<nat>): set<nat> {
    t.adj.Keys - Elements(log) - {t.ep}
  }

  lemma UnseenShrinks(t: Task, log: seq<nat>, longer: seq<nat>)
    requires log < longer && NoDup(longer) && forall n :: n in longer ==> n in t.adj
    requires forall i :: |log| <= i < |longer| ==> longer[i] != t.ep
    ensures |Unseen(t, longer)| < |Unseen(t, log)|
  {
    var c := longer[|log|];
    assert c !in log by {
      assert forall i :: 0 <= i < |log| ==> log[i] == longer[i];
    }
    assert c in Unseen(t, log) && c !in Unseen(t, longer);
    assert Unseen(t, longer) < Unseen(t, log);
    SubsetSize(Unseen(t, longer), Unseen(t, log));
  }

  lemma SubsetSize(a: set<nat>, b: set<nat>)
    requires a < b
    ensures |a| < |b|
  {
    assert |b| == |a| + |b - a|;
  }

  /** Evaluates the unseen links of `cur`, which was just taken off the candidates. */
  method Expand(t: Task, f: Frontier, cur: nat, m: nat, vl: VisitedList,
                ghost log: seq<nat>, ghost done: set<nat>)
    returns (r: Frontier, ghost log': seq<nat>)
    requires LinksOk(t.adj, m) && t.ef > 0 && t.On(cur) && cur in done
    requires Sound(t, f, log, done)
    requires vl.Valid() && vl.Seen() == Elements(log) + {t.ep}
    requires forall n :: n in t.adj ==> n < vl.mass.Length
    requires forall n :: n in done && n != cur ==> Expanded(t, log, n)
    modifies vl.mass
    ensures Sound(t, r, log', done) && log <= log'
    ensures log' == log ==> r.cand == f.cand
    ensures forall i :: |log| <= i < |log'| ==> log'[i] != t.ep && log'[i] in t.adj[cur][t.layer]
    ensures forall n :: n in done ==> Expanded(t, log', n)
    ensures vl.Valid() && vl.Seen() == Elements(log') + {t.ep}
  {
    hide Sound;
    var links := t.adj[cur][t.layer];
    assert ListOk(t.adj, m, cur, t.layer, links);
    r, log' := f, log;
    for j := 0 to |links|
      invariant Sound(t, r, log', done) && log <= log'
      invariant log' == log ==> r.cand == f.cand
      invariant forall i :: |log| <= i < |log'| ==> log'[i] != t.ep && log'[i] in links
      invariant forall i :: 0 <= i < j ==> links[i] in log' || links[i] == t.ep
      invariant vl.Valid() && vl.Seen() == Elements(log') + {t.ep}
    {
      var c := links[j];
      assert t.On(c) && t.Links(cur, c);
      if vl.mass[c] != vl.curV {
        assert c !in vl.Seen();
        vl.Visit(c);
        assert NoDup(log') by { SoundTracked(t, r, log', done); }
        r := Evaluate(t, r, c, log', done);
        Appended(log', c);
        log' := log' + [c];
      } else {
        assert c in vl.Seen();
      }
    }
    forall n | n in done ensures Expanded(t, log', n) {
      if n != cur {
        assert Expanded(t, log, n);
        assert forall x :: x in log ==> x in log';
      }
    }
  }

  // ---- The order of a search ----

  /** The key a node is queued under: an entry node that is marked is queued at the
      largest distance instead of its own. */
  function QueueKey(t: Task): nat -> real {
    (n: nat) => if n == t.ep && t.ep in t.q.marked then t.q.inf else t.q.dist(n)
  }

  /** The nodes whose distance is evaluated when the nodes of `order` are expanded. */
  ghost function Evaluated(t: Task, order: seq<nat>): set<nat> {
    if order == [] then (if t.ep in t.q.marked then {} else {t.ep})
    else
      var x := order[|order| - 1];
      Evaluated(t, order[..|order| - 1]) + (if t.On(x) then Elements(t.adj[x][t.layer]) - {t.ep} else {})
  }

  /** The evaluated nodes that may be returned and are closer than `d`. */
  ghost function CloserThan(t: Task, seen: set<nat>, d: real): set<nat> {
    set n | n in seen && t.q.Eligible(n) && t.q.dist(n) < d
  }

  /** A node queued at `d` is within the bound: fewer than `ef` nodes to return are closer and one
      is not; or, when there is none to return yet, some node is as far. */
  ghost predicate Open(t: Task, seen: set<nat>, d: real) {
    if exists n :: n in seen && t.q.Eligible(n) then
      (exists n :: n in seen && t.q.Eligible(n) && t.q.dist(n) >= d) && |CloserThan(t, seen, d)| < t.ef
    else
      || (t.ep in t.q.marked && d <= t.q.inf)
      || exists n :: n in seen && n !in t.q.marked && t.q.dist(n) >= d
  }

  /** `x` is the closest node that is evaluated and not expanded, and within the bound. */
  ghost predicate Turn(t: Task, seen: set<nat>, before: set<nat>, x: nat) {
    && x in seen + {t.ep} && x !in before && t.On(x)
    && (forall n :: n in seen + {t.ep} && n !in before ==> QueueKey(t)(x) <= QueueKey(t)(n))
    && Open(t, seen, QueueKey(t)(x))
  }

  /** The nodes are expanded each in its turn. */
  ghost predicate InTurn(t: Task, order: seq<nat>) {
    forall i :: 0 <= i < |order| ==> Turn(t, Evaluated(t, order[..i]), Elements(order[..i]), order[i])
  }

  /** The search expanded the nodes of `order` and evaluated their links and nothing else. */
  ghost predicate Ran(t: Task, log: seq<nat>, order: seq<nat>) {
    NoDup(order) && InTurn(t, order) && Elements(log) == Evaluated(t, order)
  }

  /** No node was left to expand, but for nodes no closer than `ef` returned ones. */
  ghost predicate Ended(t: Task, top: set<nat>, order: seq<nat>) {
    forall n :: n in Evaluated(t, order) + {t.ep} && n !in order ==>
      !Open(t, Evaluated(t, order), QueueKey(t)(n)) || Beaten(t, top, n)
  }

  /** The step limit cut the search when one node more than the limit was expanded. */
  ghost predicate CutOff(t: Task, log: seq<nat>, limit: nat) {
    exists order :: |order| == limit + 1 && Ran(t, log, order)
  }

  lemma RanMore(t: Task, log: seq<nat>, order: seq<nat>, log': seq<nat>, x: nat)
    requires Ran(t, log, order) && Turn(t, Elements(log), Elements(order), x)
    requires log <= log' && Expanded(t, log', x)
    requires forall i :: |log| <= i < |log'| ==> log'[i] != t.ep && log'[i] in t.adj[x][t.layer]
    ensures Ran(t, log', order + [x])
  {
    hide Turn;
    var longer := order + [x];
    assert longer[..|order|] == order;
    assert NoDup(longer) && t.On(x) by {
      TurnOn(t, Elements(log), Elements(order), x);
      Appended(order, x);
    }
    forall i | 0 <= i < |longer| ensures Turn(t, Evaluated(t, longer[..i]), Elements(longer[..i]), longer[i]) {
      if i < |order| {
        assert longer[..i] == order[..i] && longer[i] == order[i];
      }
    }
    EvaluatedMore(t, log, log', x);
  }

  lemma TurnOn(t: Task, seen: set<nat>, before: set<nat>, x: nat)
    requires Turn(t, seen, before, x)
    ensures t.On(x) && x !in before
  {
  }

  lemma EvaluatedMore(t: Task, log: seq<nat>, log': seq<nat>, x: nat)
    requires log <= log' && Expanded(t, log', x) && t.On(x)
    requires forall i :: |log| <= i < |log'| ==> log'[i] != t.ep && log'[i] in t.adj[x][t.layer]
    ensures Elements(log') == Elements(log) + (Elements(t.adj[x][t.layer]) - {t.ep})
  {
    forall n | n in log' ensures n in log || (n in t.adj[x][t.layer] && n != t.ep) {
      var i :| 0 <= i < |log'| && log'[i] == n;
      assert i < |log| ==> log[i] == n;
    }
    forall n | n in log ensures n in log' {
      var i :| 0 <= i < |log| && log[i] == n;
      assert log'[i] == n;
    }
  }

  /** The bound of the search is the bound of Open. */
  lemma OpenIff(t: Task, f: Frontier, log: seq<nat>, done: set<nat>, d: real)
    requires Sound(t, f, log, done) && t.ef > 0
    ensures Open(t, Elements(log), d) <==> d <= f.bound
  {
    hide Tracked, Queued;
    var seen := Elements(log);
    if f.top == {} {
      assert forall n :: n in seen ==> !t.q.Eligible(n) by {
        forall n | n in seen ensures !t.q.Eligible(n) {
          assert n in log && !Beaten(t, f.top, n);
        }
      }
      OpenNone(t, f, log, d);
    } else {
      var h :| h in f.top && t.q.dist(h) == f.bound;
      OpenSome(t, f, log, d, h);
    }
  }

  lemma OpenNone(t: Task, f: Frontier, log: seq<nat>, d: real)
    requires Widened(t, f.top, f.bound, log) && f.top == {}
    requires forall n :: n in Elements(log) ==> !t.q.Eligible(n)
    ensures Open(t, Elements(log), d) <==> d <= f.bound
  {
    var seen := Elements(log);
    assert forall n :: n in seen <==> n in log;
    assert !exists n :: n in seen && t.q.Eligible(n);
    if Open(t, seen, d) && !(t.ep in t.q.marked && d <= t.q.inf) {
      var n :| n in seen && n !in t.q.marked && t.q.dist(n) >= d;
      assert n in log;
    }
    if !(t.ep in t.q.marked && f.bound == t.q.inf) {
      var n :| n in log && n !in t.q.marked && t.q.dist(n) == f.bound;
      assert n in seen && (d <= f.bound ==> t.q.dist(n) >= d);
    }
  }

  lemma OpenSome(t: Task, f: Frontier, log: seq<nat>, d: real, h: nat)
    requires Ranked(t, f.top, f.bound, log) && t.ef > 0 && h in f.top && t.q.dist(h) == f.bound
    ensures Open(t, Elements(log), d) <==> d <= f.bound
  {
    var seen := Elements(log);
    var near := CloserThan(t, seen, d);
    assert h in seen && t.q.Eligible(h);
    forall n | n in seen && t.q.Eligible(n) ensures n in f.top || (|f.top| == t.ef && f.bound <= t.q.dist(n)) {
      assert n in log && (n in f.top || Beaten(t, f.top, n));
    }
    if d <= f.bound {
      assert near <= f.top - {h};
      Smaller(near, f.top - {h});
      OneLess(f.top, h);
    } else {
      assert f.top <= near;
      Smaller(f.top, near);
    }
  }

  /** The closest candidate within the bound is next. */
  lemma TakesTurn(t: Task, f: Frontier, log: seq<nat>, done: set<nat>, x: nat)
    requires Sound(t, f, log, done) && t.ef > 0
    requires IsClosest(f.cand, QueueKey(t), x) && QueueKey(t)(x) <= f.bound
    ensures Turn(t, Elements(log), done, x)
  {
    OpenIff(t, f, log, done, QueueKey(t)(x));
    hide Open;
    forall n | n in Elements(log) + {t.ep} && n !in done ensures QueueKey(t)(x) <= QueueKey(t)(n) {
      if n !in f.cand {
        assert n in log && Beaten(t, f.top, n);
        var h :| h in f.top && t.q.dist(h) == f.bound;
        assert t.q.dist(h) <= t.q.dist(n);
      }
    }
  }

  /** The nodes returned are eligible, at most `ef`, each evaluated once, and every
      other eligible node evaluated is at least as far as all of `ef` returned ones. */
  ghost predicate Found(t: Task, top: set<nat>, log: seq<nat>) {
    && NoDup(log) && (forall n :: n in log ==> t.On(n) && t.Entered(n))
    && (t.ep in log <==> t.ep !in t.q.marked)
    && top <= Elements(log) && |top| <= t.ef
    && (forall n :: n in top ==> t.q.Eligible(n))
    && (forall n :: n in log && n !in top && t.q.Eligible(n) ==> Beaten(t, top, n))
  }

  ghost predicate Within(t: Task, top: set<nat>, n: nat) {
    n in top || exists x :: x in top && t.q.dist(n) < t.q.dist(x)
  }

  /** No evaluated node within the returned ones was left unexpanded. */
  ghost predicate Settled(t: Task, top: set<nat>, log: seq<nat>) {
    forall n :: n in log && Within(t, top, n) ==> Expanded(t, log, n)
  }

  ghost predicate Beyond(t: Task, f: Frontier) {
    forall n :: n in f.cand ==> QueueKey(t)(n) > f.bound
  }

  lemma NoneBeyond(t: Task, f: Frontier)
    requires f.cand == {}
    ensures Beyond(t, f)
  {
  }

  lemma ClosestBeyond(t: Task, f: Frontier, x: nat)
    requires IsClosest(f.cand, QueueKey(t), x) && QueueKey(t)(x) > f.bound
    ensures Beyond(t, f)
  {
  }

  /** The search may stop when the closest candidate is beyond the bound. */
  lemma StopSettles(t: Task, f: Frontier, log: seq<nat>, done: set<nat>)
    requires Sound(t, f, log, done)
    requires Beyond(t, f)
    requires forall n :: n in done ==> Expanded(t, log, n)
    ensures Settled(t, f.top, log)
  {
    forall n | n in log && Within(t, f.top, n) ensures Expanded(t, log, n) {
      assert f.top != {};
      assert t.q.dist(n) <= f.bound;
      assert n in f.cand ==> QueueKey(t)(n) > f.bound;
    }
  }

  method Start(t: Task) returns (f: Frontier, ghost log: seq<nat>)
    requires t.On(t.ep) && t.ef > 0
    ensures Running(t, f, log, {}) && f.cand == {t.ep} && Elements(log) + {t.ep} == {t.ep}
    ensures log == if t.ep in t.q.marked then [] else [t.ep]
    ensures t.ep in t.q.marked ==> f.bound == t.q.inf
    ensures QueueKey(t)(t.ep) == f.bound
  {
    if t.ep !in t.q.marked {
      var top := if t.q.Eligible(t.ep) then {t.ep} else {};
      f, log := Frontier(top, {t.ep}, t.q.dist(t.ep)), [t.ep];
      assert f.top != {} ==> t.ep in f.top;
    } else {
      f, log := Frontier({}, {t.ep}, t.q.inf), [];
    }
  }

  lemma TakeStep(t: Task, f: Frontier, log: seq<nat>, done: set<nat>, x: nat)
    requires Sound(t, f, log, done) && x in f.cand
    ensures Sound(t, Frontier(f.top, f.cand - {x}, f.bound), log, done + {x})
    ensures t.On(x)
  {
  }

  /** What holds between two expansions. */
  ghost predicate Running(t: Task, f: Frontier, log: seq<nat>, done: set<nat>) {
    Sound(t, f, log, done) && forall n :: n in done ==> Expanded(t, log, n)
  }

  /** Expands the closest candidate `x`. */
  method Step(t: Task, m: nat, f: Frontier, x: nat, vl: VisitedList,
              ghost log: seq<nat>, ghost order: seq<nat>)
    returns (r: Frontier, ghost log': seq<nat>, ghost order': seq<nat>)
    requires LinksOk(t.adj, m) && t.ef > 0
    requires Running(t, f, log, Elements(order)) && Ran(t, log, order)
    requires IsClosest(f.cand, QueueKey(t), x) && QueueKey(t)(x) <= f.bound
    requires vl.Valid() && vl.Seen() == Elements(log) + {t.ep}
    requires forall n :: n in t.adj ==> n < vl.mass.Length
    modifies vl.mass
    ensures order' == order + [x] && Running(t, r, log', Elements(order')) && Ran(t, log', order')
    ensures vl.Valid() && vl.Seen() == Elements(log') + {t.ep}
    ensures |Unseen(t, log')| < |Unseen(t, log)| || (log' == log && |r.cand| < |f.cand|)
  {
    hide Sound, Expanded, Ran, Turn;
    ghost var done := Elements(order);
    TakesTurn(t, f, log, done, x);
    TakeStep(t, f, log, done, x);
    r, log' := Expand(t, Frontier(f.top, f.cand - {x}, f.bound), x, m, vl, log, done + {x});
    order' := order + [x];
    assert Elements(order') == done + {x};
    RanMore(t, log, order, log', x);
    if log' != log {
      SoundTracked(t, r, log', done + {x});
      UnseenShrinks(t, log, log');
    }
  }

  lemma Finish(t: Task, f: Frontier, log: seq<nat>, order: seq<nat>, complete: bool)
    requires Running(t, f, log, Elements(order)) && (complete ==> Beyond(t, f)) && t.ef > 0
    requires Ran(t, log, order)
    ensures Found(t, f.top, log)
    ensures complete ==> Settled(t, f.top, log) && Ended(t, f.top, order)
  {
    if complete {
      StopSettles(t, f, log, Elements(order));
      StopEnds(t, f, log, order);
    }
  }

  lemma StopEnds(t: Task, f: Frontier, log: seq<nat>, order: seq<nat>)
    requires Sound(t, f, log, Elements(order)) && Beyond(t, f) && t.ef > 0 && Ran(t, log, order)
    ensures Ended(t, f.top, order)
  {
    hide InTurn, Open;
    forall n | n in Evaluated(t, order) + {t.ep} && n !in order
      ensures !Open(t, Evaluated(t, order), QueueKey(t)(n)) || Beaten(t, f.top, n)
    {
      if n in f.cand {
        OpenIff(t, f, log, Elements(order), QueueKey(t)(n));
      } else {
        assert n in log;
      }
    }
  }

  lemma StartRan(t: Task, log: seq<nat>)
    requires log == if t.ep in t.q.marked then [] else [t.ep]
    ensures Ran(t, log, []) && Elements([]) == {}
  {
  }

  method Scan(t: Task, m: nat, check: bool, limit: nat, vl: VisitedList)
    returns (top: set<nat>, complete: bool, ghost log: seq<nat>, ghost order: seq<nat>)
    requires LinksOk(t.adj, m) && t.On(t.ep) && t.ef > 0
    requires vl.Valid() && vl.Seen() == {} && t.ep < vl.mass.Length
    requires forall n :: n in t.adj ==> n < vl.mass.Length
    modifies vl.mass
    ensures vl.Valid()
    ensures Found(t, top, log) && Ran(t, log, order)
    ensures if complete then Settled(t, top, log) && Ended(t, top, order) else check && |order| == limit + 1
    ensures complete && check ==> |order| <= limit
  {
    hide *;
    var f;
    f, log := Start(t);
    order := [];
    vl.Visit(t.ep);
    StartRan(t, log);
    complete := true;
    var steps := 0;
    while true
      invariant Running(t, f, log, Elements(order)) && complete && Ran(t, log, order)
      invariant |order| == steps && (check ==> steps <= limit)
      invariant vl.Valid() && vl.Seen() == Elements(log) + {t.ep}
      decreases |Unseen(t, log)|, |f.cand|
    {
      if f.cand == {} {
        NoneBeyond(t, f);
        break;
      }
      var x, rest := PopClosest(f.cand, QueueKey(t));
      if QueueKey(t)(x) > f.bound {
        ClosestBeyond(t, f, x);
        break;
      }
      f, log, order := Step(t, m, f, x, vl, log, order);
      steps := steps + 1;
      if check && steps > limit {
        complete := false;
        break;
      }
    }
    Finish(t, f, log, order, complete);
    top := f.top;
  }

  /** The search of one level. `limit` is the step limit of a query (efSearch, when
      do_efSearch_check is set); `complete` tells that it did not cut the search. Always the
      closest node evaluated is expanded next, as long as it is within the bound. */
  method BestFirst(t: Task, m: nat, check: bool, limit: nat, pool: VisitedListPool)
    returns (top: set<nat>, complete: bool, ghost log: seq<nat>, ghost order: seq<nat>)
    requires LinksOk(t.adj, m) && t.On(t.ep) && t.ef > 0
    requires pool.Valid() && forall n :: n in t.adj ==> n < pool.numElements
    modifies pool, pool.Footprint()
    ensures pool.Valid() && fresh(pool.Footprint() - old(pool.Footprint()))
    ensures Found(t, top, log) && Ran(t, log, order)
    ensures if complete then Settled(t, top, log) && Ended(t, top, order) else check && |order| == limit + 1
    ensures complete && check ==> |order| <= limit
    ensures complete && top == {} ==> forall n :: n in log && n !in t.q.marked ==> Expanded(t, log, n)
    ensures |pool.lists| == if old(pool.lists) == [] then 1 else |old(pool.lists)|
  {
    hide Found, Settled, LinksOk, Ran, Ended;
    var vl := pool.GetFreeVisitedList();
    top, complete, log, order := Scan(t, m, check, limit, vl);
    pool.ReleaseVisitedList(vl);
    if complete && top == {} {
      NothingLeft(t, log, order);
    }
  }

  lemma {:induction false} OrderExpanded(t: Task, order: seq<nat>, n: nat)
    requires n in order && t.On(n)
    ensures forall x :: x in t.adj[n][t.layer] ==> x in Evaluated(t, order) || x == t.ep
    decreases |order|
  {
    var k := |order| - 1;
    if order[k] != n {
      assert order == order[..k] + [order[k]];
      OrderExpanded(t, order[..k], n);
    }
  }

  /** A completed search that returns nothing has expanded every unmarked node it evaluated. */
  lemma NothingLeft(t: Task, log: seq<nat>, order: seq<nat>)
    requires Found(t, {}, log) && Ran(t, log, order) && Ended(t, {}, order) && t.ef > 0
    ensures forall n :: n in log && n !in t.q.marked ==> Expanded(t, log, n)
    ensures t.On(t.ep) ==> Expanded(t, log, t.ep)
  {
    hide InTurn;
    forall n | n in log ensures !t.q.Eligible(n) {
      assert !Beaten(t, {}, n);
    }
    forall n | (n in log && n !in t.q.marked) || (n == t.ep && t.On(n)) ensures Expanded(t, log, n) {
      assert n in Elements(log) + {t.ep};
      assert Open(t, Elements(log), QueueKey(t)(n)) by {
        assert n in log ==> n in Elements(log);
      }
      assert n in order;
      if t.On(n) {
        OrderExpanded(t, order, n);
      }
    }
  }

  ghost predicate Path(t: Task, p: seq<nat>) {
    && |p| > 0 && p[0] == t.ep
    && forall i, j :: 0 <= i < j < |p| && j == i + 1 ==> t.Links(p[i], p[j])
  }

  /** Nothing to return then: no node that unmarked nodes lead to from the entry is eligible. */
  lemma {:induction false} FindsNothing(t: Task, log: seq<nat>, order: seq<nat>, p: seq<nat>)
    requires Found(t, {}, log) && Ran(t, log, order) && Ended(t, {}, order) && t.ef > 0 && t.On(t.ep)
    requires Path(t, p) && forall i :: 0 < i < |p| - 1 ==> p[i] !in t.q.marked
    ensures !t.q.Eligible(p[|p| - 1]) && (p[|p| - 1] in log || p[|p| - 1] == t.ep)
    decreases |p|
  {
    hide Ran, Ended;
    var n := p[|p| - 1];
    if |p| > 1 {
      var shorter := p[..|p| - 1];
      FindsNothing(t, log, order, shorter);
      var before := shorter[|shorter| - 1];
      assert t.Links(before, n);
      NothingLeft(t, log, order);
      assert Expanded(t, log, before);
    }
    assert !Beaten(t, {}, n);
    assert |p| == 1 && n !in log ==> n in t.q.marked;
  }

  /** A search that was not cut. */
  ghost predicate Completed(t: Task, top: set<nat>, log: seq<nat>) {
    && Found(t, top, log) && Settled(t, top, log)
    && exists order :: Ran(t, log, order) && Ended(t, top, order)
  }

  /** A settled search is locally optimal: an eligible link of a returned node is
      returned itself or no closer than `ef` returned nodes. */
  lemma LocallyOptimal(t: Task, top: set<nat>, log: seq<nat>, n: nat, x: nat)
    requires Found(t, top, log) && Settled(t, top, log)
    requires n in top && t.On(n) && x in t.adj[n][t.layer] && t.q.Eligible(x)
    ensures x in top || Beaten(t, top, x)
  {
    assert n in log && Within(t, top, n);
    assert Expanded(t, log, n);
  }

  /** A settled search in which everything is eligible and fewer than `ef` nodes are
      returned has found every node that can be reached from the entry node. */
  lemma {:induction false} ReachesAll(t: Task, top: set<nat>, log: seq<nat>, p: seq<nat>)
    requires Found(t, top, log) && Settled(t, top, log) && |top| < t.ef
    requires forall n :: t.On(n) ==> t.q.Eligible(n)
    requires Path(t, p) && t.On(t.ep)
    ensures p[|p| - 1] in top
  {
    if |p| == 1 {
      assert t.ep in log;
    } else {
      var shorter := p[..|p| - 1];
      ReachesAll(t, top, log, shorter);
      var n := p[|p| - 2];
      assert shorter[|shorter| - 1] == n && t.Links(n, p[|p| - 1]);
      assert Within(t, top, n);
      assert Expanded(t, log, n);
    }
  }

  /** The nodes closer than `d`. */
  ghost function Closer(adj: Adj, dist: nat -> real, d: real): set<nat> {
    set n | n in adj && dist(n) < d
  }

  lemma CloserShrinks(adj: Adj, dist: nat -> real, a: nat, d: real)
    requires a in adj && dist(a) < d
    ensures |Closer(adj, dist, dist(a))| < |Closer(adj, dist, d)|
  {
    assert a in Closer(adj, dist, d) && a !in Closer(adj, dist, dist(a));
    SubsetSize(Closer(adj, dist, dist(a)), Closer(adj, dist, d));
  }

  ghost predicate LocalMinimum(adj: Adj, n: nat, level: nat, dist: nat -> real) {
    HasLevel(adj, n, level) && forall x :: x in adj[n][level] ==> dist(n) <= dist(x)
  }

  /** Moves to the closest entry of one link list. */
  method ClosestOf(links: seq<nat>, start: nat, dist: nat -> real) returns (r: nat)
    ensures r == start || r in links
    ensures dist(r) <= dist(start) && forall x :: x in links ==> dist(r) <= dist(x)
    ensures r != start ==> dist(r) < dist(start)
  {
    r := start;
    for i := 0 to |links|
      invariant r == start || (r in links && dist(r) < dist(start))
      invariant forall j :: 0 <= j < i ==> dist(r) <= dist(links[j])
    {
      if dist(links[i]) < dist(r) {
        r := links[i];
      }
    }
  }

  /** A step of the greedy walk goes to the closest link, if that is closer. */
  ghost predicate Hop(adj: Adj, level: nat, dist: nat -> real, a: nat, b: nat) {
    && HasLevel(adj, a, level) && b in adj[a][level] && dist(b) < dist(a)
    && forall x :: x in adj[a][level] ==> dist(b) <= dist(x)
  }

  ghost predicate Hops(adj: Adj, level: nat, dist: nat -> real, p: seq<nat>) {
    p != [] && forall i, j :: 0 <= i < j < |p| && j == i + 1 ==> Hop(adj, level, dist, p[i], p[j])
  }

  /** The greedy walk of a level leads from a to b. */
  ghost predicate Walked(adj: Adj, level: nat, dist: nat -> real, a: nat, b: nat) {
    && LocalMinimum(adj, b, level, dist)
    && exists p :: Hops(adj, level, dist, p) && p[0] == a && p[|p| - 1] == b
  }

  /** The greedy walks of the levels from `high` down to above `low` lead from a to b. */
  ghost predicate Descended(adj: Adj, high: int, low: int, dist: nat -> real, a: nat, b: nat)
    decreases high - low
  {
    if high <= low || high < 0 then a == b
    else exists c :: Walked(adj, high, dist, a, c) && Descended(adj, high - 1, low, dist, c, b)
  }

  lemma {:induction false} DescendedMore(adj: Adj, high: int, low: int, dist: nat -> real, a: nat, b: nat, c: nat)
    requires 0 < low <= high && Descended(adj, high, low, dist, a, b) && Walked(adj, low, dist, b, c)
    ensures Descended(adj, high, low - 1, dist, a, c)
    decreases high - low
  {
    hide Walked;
    if high == low {
      assert Descended(adj, high - 1, low - 1, dist, c, c);
    } else {
      var x :| Walked(adj, high, dist, a, x) && Descended(adj, high - 1, low, dist, x, b);
      DescendedMore(adj, high - 1, low, dist, x, b, c);
    }
  }

  /** The greedy walk of one level ends in a node none of whose links is closer. */
  method Walk(adj: Adj, m: nat, start: nat, level: nat, dist: nat -> real) returns (r: nat)
    requires LinksOk(adj, m) && HasLevel(adj, start, level)
    ensures LocalMinimum(adj, r, level, dist) && dist(r) <= dist(start)
    ensures r == start || !Unlinked(adj, r, level)
    ensures Walked(adj, level, dist, start, r)
  {
    r := start;
    ghost var p := [start];
    while true
      invariant Hops(adj, level, dist, p) && p[0] == start && p[|p| - 1] == r
      invariant HasLevel(adj, r, level) && dist(r) <= dist(start)
      invariant r == start || !Unlinked(adj, r, level)
      decreases |Closer(adj, dist, dist(r))|
    {
      assert ListOk(adj, m, r, level, adj[r][level]);
      var c := ClosestOf(adj[r][level], r, dist);
      if c == r {
        return;
      }
      CloserShrinks(adj, dist, c, dist(r));
      r := c;
      p := p + [c];
    }
  }

  /** The descent from the top level to just above level `low`. */
  method Descend(adj: Adj, m: nat, start: nat, high: int, low: nat, dist: nat -> real)
    returns (r: nat)
    requires LinksOk(adj, m) && HasLevel(adj, start, high)
    ensures dist(r) <= dist(start)
    ensures if low < high then LocalMinimum(adj, r, low + 1, dist) else r == start
    ensures r == start || exists l: nat :: !Unlinked(adj, r, l)
    ensures Descended(adj, high, low, dist, start, r)
  {
    hide Walked;
    r := start;
    var level := high;
    while level > low
      invariant HasLevel(adj, r, level) && dist(r) <= dist(start)
      invariant if level < high then LocalMinimum(adj, r, level + 1, dist) else r == start
      invariant r == start || exists l: nat :: !Unlinked(adj, r, l)
      invariant low < high ==> low <= level <= high
      invariant low >= high ==> level == high
      invariant Descended(adj, high, level, dist, start, r)
      decreases level
    {
      ghost var before := r;
      r := Walk(adj, m, r, level, dist);
      DescendedMore(adj, high, level, dist, start, before, r);
      level := level - 1;
    }
  }
}
