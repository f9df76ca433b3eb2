/** The inverted index as an abstract machine: what each call does to the map of its
    vectors, to the sizes, capacities and dead counts of its buckets, and to the releases
    that are pending. Every answer and every refusal is a function of this state. */
module InvertedMachine {
  import opened ByteStrings
  import opened Lists
  import opened InvertedSpec
  import opened InvertedArrays
  import opened InvertedFormat

  /** Largest capacity, bytes per code, and growth per extension. */
  datatype Settings = Settings(limit: nat, width: nat, coefficient: nat -> real) {
    /** Bytes of one slot: an 8-byte id word and its code. */
    function Unit(): nat {
      8 + width
    }
  }

  datatype Op =
    | Add(b: nat, keys: seq<nat>, bytes: Bytes)
    | Update(b: nat, v: nat, code: Code)
    | Delete(v: nat)
    | CompactAll
    | Free(i: nat)

  /** At least three in ten slots are dead; an empty bucket divides to no number. */
  predicate MostlyDead(size: nat, dead: nat) {
    size > 0 && dead as real / size as real >= 0.3
  }

  datatype Abstract = Abstract(
    m: map<nat, (int, Code)>, deleted: set<nat>, placed: set<nat>,
    size: seq<nat>, capacity: seq<nat>, time: seq<nat>, dead: seq<nat>,
    pending: seq<nat>, compacted: nat)
  {
    ghost predicate Ok() {
      && |size| == |capacity| == |time| == |dead|
      && (forall b :: 0 <= b < |size| ==> 10 <= capacity[b] && time[b] < 256)
      && forall v :: v in m ==> 0 <= m[v].0 < |size| && v in placed && v !in deleted
    }

    /** Bucket `b` has no room for `n` more slots and may not grow. */
    ghost predicate Full(c: Settings, b: nat, n: nat)
      requires Ok() && b < |size|
    {
      size[b] + n > capacity[b] && capacity[b] * 2 >= c.limit
    }

    /** Room for `n` more slots was made where that was needed and possible. */
    ghost function Roomy(c: Settings, b: nat, n: nat): (r: Abstract)
      requires Ok() && b < |size| && Growing(c.coefficient)
      ensures r.Ok()
    {
      if size[b] + n <= capacity[b] || Full(c, b, n) then this
      else
        var g := Extended(capacity[b], size[b] + n, time[b], c.coefficient);
        this.(capacity := capacity[b := g.0], time := time[b := g.1],
              pending := pending + [capacity[b] * c.Unit()])
    }

    ghost function Stored(b: nat, keys: seq<nat>, codes: seq<Code>): Abstract
      requires Ok() && b < |size| && |keys| == |codes|
    {
      this.(m := AddAll(m, deleted, b, keys, codes), placed := placed + Elements(keys),
            size := Bump(size, b, |keys|), dead := Bump(dead, b, DeadAmong(keys, deleted)))
    }

    ghost predicate Accepts(c: Settings, b: nat, keys: seq<nat>, bytes: Bytes)
      requires Ok() && b < |size|
    {
      !Full(c, b, |keys|) && |keys| * c.width == |bytes|
    }

    /** AddKeys: all vectors or none; the capacity is raised before the lengths are compared. */
    ghost function Added(c: Settings, b: nat, keys: seq<nat>, bytes: Bytes): Abstract
      requires Ok() && b < |size| && Growing(c.coefficient)
    {
      var r := Roomy(c, b, |keys|);
      if Accepts(c, b, keys, bytes) then r.Stored(b, keys, Chop(bytes, c.width, |keys|)) else r
    }

    /** The vector is in another bucket than `b`. */
    ghost predicate Moves(b: nat, v: nat) {
      v in m && m[v].0 != b
    }

    ghost function Masked(v: nat): (r: Abstract)
      requires Ok() && v in m
    {
      this.(m := m - {v}, dead := Bump(dead, m[v].0, 1))
    }

    /** Update: nothing, in place, or masked here and stored there. */
    ghost function Updated(c: Settings, b: nat, v: nat, code: Code): Abstract
      requires Ok() && b < |size| && Growing(c.coefficient)
    {
      if v !in m then this
      else if !Moves(b, v) then this.(m := m[v := (b as int, code)])
      else
        var r := Roomy(c, b, 1);
        r.Masked(v).(m := m[v := (b as int, code)], size := Bump(size, b, 1))
    }

    ghost function Removed(v: nat): Abstract
      requires Ok()
    {
      (if v in m then Masked(v) else this).(deleted := deleted + {v})
    }

    /** One bucket without its dead slots. */
    ghost function Squeezed(b: nat): (r: Abstract)
      requires Ok() && b < |size|
      ensures r.Ok() && |r.size| == |size|
    {
      this.(size := size[b := if dead[b] <= size[b] then size[b] - dead[b] else 0], dead := dead[b := 0],
            pending := pending + [0], compacted := compacted + dead[b])
    }

    /** The first `n` buckets were compacted where they were mostly dead. */
    ghost function Tidied(n: nat): (r: Abstract)
      requires Ok() && n <= |size|
      ensures r.Ok() && |r.size| == |size|
    {
      if n == 0 then this
      else
        var r := Tidied(n - 1);
        if MostlyDead(r.size[n - 1], r.dead[n - 1]) then r.Squeezed(n - 1) else r
    }

    /** The call meets the hypotheses of the index: new vectors are distinct and without a
        position, an updated vector is not deleted and its move is not refused, a vector
        is deleted once, and a bucket stays below 2^32 slots. */
    ghost predicate Allowed(c: Settings, op: Op)
      requires Ok()
    {
      match op
      case Add(b, keys, bytes) =>
        && b < |size| && size[b] + |keys| <= HALF && NoDup(keys)
        && forall i :: 0 <= i < |keys| ==> keys[i] < MASK && keys[i] !in placed
      case Update(b, v, code) =>
        && b < |size| && size[b] < HALF && v !in deleted && v < MASK
        && (v in m ==> |code| == c.width) && !(Moves(b, v) && Full(c, b, 1))
      case Delete(v) => v < MASK && v !in deleted
      case CompactAll => true
      case Free(i) => i < |pending|
    }

    /** The state after a call; one outside the hypotheses is not made. */
    ghost function After(c: Settings, op: Op): Abstract
      requires Ok() && Growing(c.coefficient)
    {
      if !Allowed(c, op) then this
      else match op
        case Add(b, keys, bytes) => Added(c, b, keys, bytes)
        case Update(b, v, code) => Updated(c, b, v, code)
        case Delete(v) => Removed(v)
        case CompactAll => Tidied(|size|)
        case Free(i) => this.(pending := pending[..i] + pending[i + 1..])
    }

    /** What the call returns: 1 for an accepted AddKeys and for an Update that moved. */
    ghost function Answer(c: Settings, op: Op): int
      requires Ok()
    {
      if !Allowed(c, op) then 0
      else match op
        case Add(b, keys, bytes) => if Accepts(c, b, keys, bytes) then 1 else 0
        case Update(b, v, _) => if Moves(b, v) then 1 else 0
        case Delete(_) => 0
        case CompactAll => 0
        case Free(_) => 0
    }
  }

  lemma {:induction false} AddAllRange(m: map<nat, (int, Code)>, bitmap: set<nat>, b: nat, keys: seq<nat>,
                                       codes: seq<Code>, v: nat)
    requires |keys| == |codes|
    ensures v in AddAll(m, bitmap, b, keys, codes) <==> v in m || (v in keys && v !in bitmap)
    ensures v in keys && v !in bitmap ==> AddAll(m, bitmap, b, keys, codes)[v].0 == b
    ensures v in m && v !in keys ==> AddAll(m, bitmap, b, keys, codes)[v] == m[v]
  {
    if keys != [] {
      var n := |keys| - 1;
      AddAllRange(m, bitmap, b, keys[..n], codes[..n], v);
      assert keys == keys[..n] + [keys[n]];
    }
  }

  lemma StoredOk(a: Abstract, b: nat, keys: seq<nat>, codes: seq<Code>)
    requires a.Ok() && b < |a.size| && |keys| == |codes|
    ensures a.Stored(b, keys, codes).Ok()
  {
    hide AddAll, DeadAmong;
    var r := a.Stored(b, keys, codes);
    forall v | v in r.m ensures 0 <= r.m[v].0 < |r.size| && v in r.placed && v !in r.deleted {
      AddAllRange(a.m, a.deleted, b, keys, codes, v);
    }
  }

  lemma AfterOk(a: Abstract, c: Settings, op: Op)
    requires a.Ok() && Growing(c.coefficient)
    ensures a.After(c, op).Ok()
  {
    hide Growing, AddAll, DeadAmong, Chop, Growth;
    if a.Allowed(c, op) && op.Add? && a.Accepts(c, op.b, op.keys, op.bytes) {
      StoredOk(a.Roomy(c, op.b, |op.keys|), op.b, op.keys, Chop(op.bytes, c.width, |op.keys|));
    }
  }

  /** The state after a sequence of calls. */
  ghost function Replay(a: Abstract, c: Settings, ops: seq<Op>): (r: Abstract)
    requires a.Ok() && Growing(c.coefficient)
    ensures r.Ok()
  {
    if ops == [] then a
    else
      var r := Replay(a, c, ops[..|ops| - 1]);
      AfterOk(r, c, ops[|ops| - 1]);
      r.After(c, ops[|ops| - 1])
  }

  /** Every call meets the hypotheses when it is made. */
  ghost predicate Legal(a: Abstract, c: Settings, ops: seq<Op>)
    requires a.Ok() && Growing(c.coefficient)
  {
    forall i :: 0 <= i < |ops| ==> Replay(a, c, ops[..i]).Allowed(c, ops[i])
  }

  lemma ReplayStart(a: Abstract, c: Settings, ops: seq<Op>)
    requires a.Ok() && Growing(c.coefficient)
    ensures Replay(a, c, ops[..0]) == a
  {
  }

  lemma ReplayStep(a: Abstract, c: Settings, ops: seq<Op>, i: nat)
    requires a.Ok() && Growing(c.coefficient) && i < |ops| && Legal(a, c, ops)
    ensures Replay(a, c, ops[..i]).Allowed(c, ops[i])
    ensures Replay(a, c, ops[..i + 1]) == Replay(a, c, ops[..i]).After(c, ops[i])
  {
    assert ops[..i + 1][..i] == ops[..i];
  }

  // ---- conservation ----

  /** The vectors of bucket `b`. */
  ghost function Members(m: map<nat, (int, Code)>, b: int): set<nat> {
    set v | v in m && m[v].0 == b
  }

  /** Bucket `b` has as many live slots as the map has vectors in it. */
  ghost predicate BalancedAt(a: Abstract, b: nat)
    requires a.Ok() && b < |a.size|
  {
    |Members(a.m, b)| + a.dead[b] == a.size[b]
  }

  ghost predicate Balanced(a: Abstract) {
    a.Ok() && forall b :: 0 <= b < |a.size| ==> BalancedAt(a, b)
  }

  lemma {:induction false} Grows(m: map<nat, (int, Code)>, bitmap: set<nat>, b: nat, keys: seq<nat>,
                                 codes: seq<Code>, x: int)
    requires |keys| == |codes| && NoDup(keys) && forall v :: v in keys ==> v !in m
    ensures |Members(AddAll(m, bitmap, b, keys, codes), x)|
            == |Members(m, x)| + if x == b then |keys| - DeadAmong(keys, bitmap) else 0
  {
    if keys != [] {
      var n := |keys| - 1;
      Grows(m, bitmap, b, keys[..n], codes[..n], x);
      var r := AddAll(m, bitmap, b, keys[..n], codes[..n]);
      AddAllRange(m, bitmap, b, keys[..n], codes[..n], keys[n]);
      assert keys[n] !in r;
      NewMember(r, keys[n], (b as int, codes[n]), x);
    }
  }

  lemma NewMember(m: map<nat, (int, Code)>, v: nat, e: (int, Code), x: int)
    requires v !in m
    ensures |Members(m[v := e], x)| == |Members(m, x)| + if x == e.0 then 1 else 0
  {
    var now := Members(m[v := e], x);
    if x == e.0 {
      OneMore(Members(m, x), v);
      assert now == Members(m, x) + {v};
    } else {
      assert now == Members(m, x);
    }
  }

  lemma LostMember(m: map<nat, (int, Code)>, v: nat, x: int)
    requires v in m
    ensures |Members(m - {v}, x)| == |Members(m, x)| - if x == m[v].0 then 1 else 0
  {
    var now := Members(m - {v}, x);
    if x == m[v].0 {
      OneMore(now, v);
      assert Members(m, x) == now + {v};
    } else {
      assert Members(m, x) == now;
    }
  }

  lemma AddedBalanced(a: Abstract, c: Settings, b: nat, keys: seq<nat>, bytes: Bytes)
    requires Balanced(a) && Growing(c.coefficient) && a.Allowed(c, Add(b, keys, bytes))
    ensures Balanced(a.Added(c, b, keys, bytes))
  {
    hide AddAll, DeadAmong, Chop, Growth;
    if a.Accepts(c, b, keys, bytes) {
      var codes := Chop(bytes, c.width, |keys|);
      var r := a.Roomy(c, b, |keys|);
      StoredOk(r, b, keys, codes);
      forall x | 0 <= x < |a.size| ensures BalancedAt(r.Stored(b, keys, codes), x) {
        assert BalancedAt(a, x);
        Grows(a.m, a.deleted, b, keys, codes, x);
      }
    } else {
      SameBalance(a, a.Roomy(c, b, |keys|));
    }
  }

  lemma MaskedBalance(a: Abstract, v: nat)
    requires Balanced(a) && v in a.m
    ensures Balanced(a.Masked(v))
  {
    var r := a.Masked(v);
    forall x | 0 <= x < |a.size| ensures BalancedAt(r, x) {
      assert BalancedAt(a, x);
      LostMember(a.m, v, x);
    }
  }

  lemma UpdatedBalanced(a: Abstract, c: Settings, b: nat, v: nat, code: Code)
    requires Balanced(a) && Growing(c.coefficient) && a.Allowed(c, Update(b, v, code))
    ensures Balanced(a.Updated(c, b, v, code))
  {
    hide Members, Growing, Extended;
    if v in a.m {
      var r := a.Updated(c, b, v, code);
      forall x | 0 <= x < |a.size| ensures BalancedAt(r, x) {
        assert BalancedAt(a, x);
        MovedMember(a.m, v, (b as int, code), x);
      }
    }
  }

  lemma MovedMember(m: map<nat, (int, Code)>, v: nat, e: (int, Code), x: int)
    requires v in m
    ensures |Members(m[v := e], x)| == |Members(m, x)| + (if x == e.0 then 1 else 0) - if x == m[v].0 then 1 else 0
  {
    hide Members;
    LostMember(m, v, x);
    NewMember(m - {v}, v, e, x);
    assert (m - {v})[v := e] == m[v := e];
  }

  lemma SqueezedBalanced(a: Abstract, b: nat)
    requires Balanced(a) && b < |a.size|
    ensures Balanced(a.Squeezed(b))
  {
    hide Members;
    assert BalancedAt(a, b);
    var r := a.Squeezed(b);
    forall x | 0 <= x < |a.size| ensures BalancedAt(r, x) {
      assert BalancedAt(a, x);
    }
  }

  lemma {:induction false} TidiedBalanced(a: Abstract, n: nat)
    requires Balanced(a) && n <= |a.size|
    ensures Balanced(a.Tidied(n))
  {
    hide Balanced, MostlyDead;
    BalancedOk(a);
    if n > 0 {
      TidiedBalanced(a, n - 1);
      SqueezedBalanced(a.Tidied(n - 1), n - 1);
    }
  }

  /** Every call keeps the machine well formed and its buckets balanced. */
  lemma AfterBalanced(a: Abstract, c: Settings, op: Op)
    requires Balanced(a) && Growing(c.coefficient)
    ensures Balanced(a.After(c, op))
  {
    hide Balanced, Members, Growing;
    assert a.Ok() by { BalancedOk(a); }
    if a.Allowed(c, op) {
      match op
      case Add(b, keys, bytes) => AddedBalanced(a, c, b, keys, bytes);
      case Update(b, v, code) => UpdatedBalanced(a, c, b, v, code);
      case Delete(v) => RemovedBalanced(a, v);
      case CompactAll => TidiedBalanced(a, |a.size|);
      case Free(i) => SameBalance(a, a.(pending := a.pending[..i] + a.pending[i + 1..]));
    }
  }

  /** Conservation: after any calls each bucket has as many live slots as the map has
      vectors in it. */
  lemma {:induction false} ReplayBalanced(a: Abstract, c: Settings, ops: seq<Op>)
    requires Balanced(a) && Growing(c.coefficient)
    ensures Balanced(Replay(a, c, ops))
  {
    hide Balanced, Growing;
    BalancedOk(a);
    if ops != [] {
      ReplayBalanced(a, c, ops[..|ops| - 1]);
      AfterBalanced(Replay(a, c, ops[..|ops| - 1]), c, ops[|ops| - 1]);
    }
  }

  lemma BalancedOk(a: Abstract)
    requires Balanced(a)
    ensures a.Ok()
  {
  }

  lemma SameBalance(a: Abstract, r: Abstract)
    requires Balanced(a) && r.Ok() && r.m == a.m && r.size == a.size && r.dead == a.dead
    ensures Balanced(r)
  {
    forall x | 0 <= x < |r.size| ensures BalancedAt(r, x) {
      assert BalancedAt(a, x);
    }
  }

  lemma RemovedBalanced(a: Abstract, v: nat)
    requires Balanced(a) && v !in a.deleted
    ensures Balanced(a.Removed(v))
  {
    if v in a.m {
      MaskedBalance(a, v);
      SameBalance(a.Masked(v), a.Removed(v));
    } else {
      SameBalance(a, a.Removed(v));
    }
  }
}
