/** The priority queues of the graph code. A queue holds node ids, each once, and
    its order is a distance that is a function of the id, so a queue is a finite
    set of ids. Which of several equally distant ids `top()` yields depends on the
    heap layout and is left open. */
module Heaps {
  import opened Lists

  ghost predicate IsFarthest(q: set<nat>, key: nat -> real, x: nat) {
    x in q && forall y :: y in q ==> key(y) <= key(x)
  }

  ghost predicate IsClosest(q: set<nat>, key: nat -> real, x: nat) {
    x in q && forall y :: y in q ==> key(x) <= key(y)
  }

  /** Some element of a non-empty queue is farthest. */
  lemma {:induction false} Farthest(q: set<nat>, key: nat -> real) returns (x: nat)
    requires q != {}
    ensures IsFarthest(q, key, x)
    decreases |q|
  {
    var z :| z in q;
    if q == {z} {
      x := z;
    } else {
      var m := Farthest(q - {z}, key);
      x := if key(z) <= key(m) then m else z;
    }
  }

  lemma {:induction false} Closest(q: set<nat>, key: nat -> real) returns (x: nat)
    requires q != {}
    ensures IsClosest(q, key, x)
    decreases |q|
  {
    var z :| z in q;
    if q == {z} {
      x := z;
    } else {
      var m := Closest(q - {z}, key);
      x := if key(m) <= key(z) then m else z;
    }
  }

  method PopFarthest(q: set<nat>, key: nat -> real) returns (x: nat, rest: set<nat>)
    requires q != {}
    ensures IsFarthest(q, key, x) && rest == q - {x}
  {
    ghost var m := Farthest(q, key);
    x :| x in q && forall y :: y in q ==> key(y) <= key(x);
    rest := q - {x};
  }

  method PopClosest(q: set<nat>, key: nat -> real) returns (x: nat, rest: set<nat>)
    requires q != {}
    ensures IsClosest(q, key, x) && rest == q - {x}
  {
    ghost var m := Closest(q, key);
    x :| x in q && forall y :: y in q ==> key(x) <= key(y);
    rest := q - {x};
  }

  ghost predicate Descending(s: seq<nat>, key: nat -> real) {
    forall i, j :: 0 <= i < j < |s| ==> key(s[j]) <= key(s[i])
  }

  ghost predicate Above(s: seq<nat>, rest: set<nat>, key: nat -> real) {
    forall x, y :: x in s && y in rest ==> key(y) <= key(x)
  }

  /** What the partly drained list `s` and the queue `rest` still to drain keep. */
  ghost predicate Draining(q: set<nat>, s: seq<nat>, rest: set<nat>, key: nat -> real) {
    && NoDup(s) && rest <= q && Elements(s) == q - rest
    && Above(s, rest, key) && Descending(s, key)
  }

  lemma DrainStep(q: set<nat>, s: seq<nat>, rest: set<nat>, key: nat -> real, x: nat)
    requires Draining(q, s, rest, key) && IsFarthest(rest, key, x)
    ensures Draining(q, s + [x], rest - {x}, key)
  {
    assert x !in Elements(s);
    Appended(s, x);
  }

  /** Emptying a queue from the top lists its ids, farthest first, each once. */
  method Drain(q: set<nat>, key: nat -> real) returns (s: seq<nat>)
    ensures NoDup(s) && Elements(s) == q && |s| == |q|
    ensures Descending(s, key)
  {
    s := [];
    var rest := q;
    while rest != {}
      invariant Draining(q, s, rest, key)
      decreases |rest|
    {
      var x, r := PopFarthest(rest, key);
      DrainStep(q, s, rest, key, x);
      s, rest := s + [x], r;
    }
    NoDupSize(s);
  }
}
