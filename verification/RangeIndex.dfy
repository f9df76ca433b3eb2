/** The index of one field: a node of document ids per key, the keys in order. The B-tree is
    a map with its keys listed in ascending order. */
module RangeIndex {
  import opened Bitmap
  import opened ByteStrings
  import opened KeyOrder
  import opened Lists
  import opened Tags
  import opened RangeResult
  import RangeNode

  type Node = RangeNode.Node
  type Nodes = map<Bytes, Node>
  type Values = map<nat, Bytes>

  /** The keys a document is indexed under: its number, or each of its tags before a byte 0. */
  ghost function KeysOf(numeric: bool, v: Bytes): seq<Bytes> {
    if !numeric then TagsOf(CString(v)) else if v == [] then [] else [Encode(v)]
  }

  ghost function IdsAt(nodes: Nodes, k: Bytes): set<nat> {
    if k in nodes then RangeNode.Docs(nodes[k]) else {}
  }

  ghost predicate NodesOk(nodes: Nodes) {
    forall k :: k in nodes ==> RangeNode.Valid(nodes[k]) && RangeNode.Ranged(nodes[k])
  }

  ghost predicate Sorted(order: seq<Bytes>) {
    forall i, j :: 0 <= i < j < |order| ==> Less(order[i], order[j])
  }

  ghost predicate Listing(order: seq<Bytes>, nodes: Nodes) {
    Sorted(order) && forall k :: k in nodes <==> k in order
  }

  /** The node of a key holds exactly the documents that have the key. */
  ghost predicate Agrees(numeric: bool, nodes: Nodes, vals: Values) {
    forall k, d :: d in IdsAt(nodes, k) <==> d in vals && k in KeysOf(numeric, vals[d])
  }

  ghost predicate Distinct(keys: seq<Bytes>) {
    forall i, j :: 0 <= i < j < |keys| ==> keys[i] != keys[j]
  }

  /** Numbers have the width of the field, and a tag value repeats no tag. */
  ghost predicate Fits(numeric: bool, width: nat, v: Bytes) {
    if numeric then |v| == width > 0 else Distinct(TagsOf(CString(v)))
  }

  // ---- The sorted keys ----

  method InsertSorted(order: seq<Bytes>, key: Bytes) returns (r: seq<Bytes>)
    requires Sorted(order) && key !in order
    ensures Sorted(r) && forall k :: k in r <==> k in order || k == key
  {
    var i := 0;
    while i < |order| && Less(order[i], key)
      invariant i <= |order| && forall j :: 0 <= j < i ==> Less(order[j], key)
    {
      i := i + 1;
    }
    r := order[..i] + [key] + order[i..];
    if i < |order| {
      LessTotal(order[i], key);
      assert order[i] != key;
      forall j | i <= j < |order| ensures Less(key, order[j]) {
        if i < j {
          LessTrans(key, order[i], order[j]);
        }
      }
    }
    InsertedMembers(order, key, i);
  }

  lemma InsertedMembers(order: seq<Bytes>, key: Bytes, i: nat)
    requires i <= |order|
    ensures forall k :: k in order[..i] + [key] + order[i..] <==> k in order || k == key
  {
    var r := order[..i] + [key] + order[i..];
    assert order == order[..i] + order[i..];
    assert r[i] == key;
  }

  // ---- Adding and deleting under one key ----

  /** The node of the key takes the id; every node takes an id below 2^30. */
  predicate TakesAt(nodes: Nodes, key: Bytes, doc: nat) {
    RangeNode.Takes(if key in nodes then nodes[key] else RangeNode.EMPTY, doc)
  }

  method InsertToBt(nodes: Nodes, order: seq<Bytes>, key: Bytes, doc: nat) returns (nodes': Nodes, order': seq<Bytes>)
    requires NodesOk(nodes) && Listing(order, nodes) && doc !in IdsAt(nodes, key) && TakesAt(nodes, key, doc)
    ensures NodesOk(nodes') && Listing(order', nodes')
    ensures forall k :: k != key ==> (TakesAt(nodes', k, doc) <==> TakesAt(nodes, k, doc))
    ensures forall k :: IdsAt(nodes', k) == if k == key then IdsAt(nodes, k) + {doc} else IdsAt(nodes, k)
  {
    hide Sorted, RangeNode.Valid, RangeNode.Docs, RangeNode.Ranged;
    order' := order;
    var n;
    if key in nodes {
      n := nodes[key];
    } else {
      n := RangeNode.EMPTY;
      FreshNode();
      order' := InsertSorted(order, key);
    }
    n := RangeNode.Add(n, doc);
    nodes' := nodes[key := n];
  }

  lemma FreshNode()
    ensures RangeNode.Valid(RangeNode.EMPTY) && RangeNode.Docs(RangeNode.EMPTY) == {}
  {
  }

  method DeleteFromBt(nodes: Nodes, key: Bytes, doc: nat) returns (nodes': Nodes)
    requires NodesOk(nodes) && doc in IdsAt(nodes, key)
    ensures NodesOk(nodes') && nodes'.Keys == nodes.Keys
    ensures forall k :: IdsAt(nodes', k) == if k == key then IdsAt(nodes, k) - {doc} else IdsAt(nodes, k)
  {
    hide RangeNode.Valid, RangeNode.Docs, RangeNode.Ranged;
    var n := RangeNode.Delete(nodes[key], doc);
    nodes' := nodes[key := n];
  }

  // ---- The scan between two bounds ----

  ghost predicate Between(low: Bytes, k: Bytes, high: Bytes) {
    AtMost(low, k) && AtMost(k, high)
  }

  /** ns are the nodes of the keys between the bounds. */
  ghost predicate Scanned(nodes: Nodes, low: Bytes, high: Bytes, keys: seq<Bytes>) {
    && (forall i :: 0 <= i < |keys| ==> keys[i] in nodes && Between(low, keys[i], high))
    && (forall k :: k in nodes && Between(low, k, high) ==> k in keys)
  }

  /** bt_startkey finds the first key not below the lower bound; the scan stops behind the upper one. */
  method Scan(order: seq<Bytes>, nodes: Nodes, low: Bytes, high: Bytes) returns (keys: seq<Bytes>)
    requires Listing(order, nodes)
    ensures Scanned(nodes, low, high, keys)
  {
    var i := 0;
    while i < |order| && Less(order[i], low)
      invariant i <= |order| && forall j :: 0 <= j < i ==> Less(order[j], low)
    {
      i := i + 1;
    }
    keys := [];
    ghost var first := i;
    while i < |order| && !Less(high, order[i])
      invariant first <= i <= |order| && keys == order[first..i]
      invariant forall j :: first <= j < i ==> !Less(high, order[j])
    {
      keys := keys + [order[i]];
      i := i + 1;
    }
    ScanComplete(order, low, high, first, i);
  }

  lemma ScanComplete(order: seq<Bytes>, low: Bytes, high: Bytes, first: nat, last: nat)
    requires Sorted(order) && first <= last <= |order|
    requires forall j :: 0 <= j < first ==> Less(order[j], low)
    requires first < |order| ==> !Less(order[first], low)
    requires forall j :: first <= j < last ==> !Less(high, order[j])
    requires last < |order| ==> Less(high, order[last])
    ensures forall i :: first <= i < last ==> Between(low, order[i], high)
    ensures forall k :: k in order && Between(low, k, high) ==> k in order[first..last]
  {
    forall i | first <= i < last ensures Between(low, order[i], high) {
      if first < i {
        LessTotal(order[first], low);
        if Less(order[i], low) {
          LessTrans(order[first], order[i], low);
        }
      }
    }
    forall k | k in order && Between(low, k, high) ensures k in order[first..last] {
      var i :| 0 <= i < |order| && order[i] == k;
      if last < i {
        LessTrans(high, order[last], order[i]);
      }
      assert first <= i < last;
      assert order[first..last][i - first] == k;
    }
  }

  /** The bounds the scan keeps while it collects nodes. */
  datatype Hull = Hull(minDoc: nat, maxDoc: int, minAligned: nat, maxAligned: int)

  ghost predicate HullOf(ns: seq<Node>, h: Hull) {
    && (forall i :: 0 <= i < |ns| ==>
          h.minDoc <= ns[i].min && ns[i].max <= h.maxDoc && Inside(ns[i], h.minAligned, h.maxAligned))
    && (ns == [] ==> h == Hull(RangeNode.MAX_INT, 0, RangeNode.MAX_INT, 0))
    && h.maxDoc < RangeNode.TOP
    && (ns != [] ==> h.minAligned % OP_LEN == 0 && (h.maxAligned + 1) % OP_LEN == 0)
    && (ns != [] ==> h.minAligned <= RangeNode.MAX_INT && h.minDoc <= h.maxDoc && h.minAligned <= h.maxAligned)
  }

  function Widen(h: Hull, n: Node): Hull {
    Hull(if n.min < h.minDoc then n.min else h.minDoc,
         if n.max > h.maxDoc then n.max else h.maxDoc,
         if n.minAligned < h.minAligned then n.minAligned else h.minAligned,
         if n.maxAligned > h.maxAligned then n.maxAligned else h.maxAligned)
  }

  lemma WidenHull(ns: seq<Node>, h: Hull, n: Node)
    requires HullOf(ns, h) && RangeNode.Ranged(n)
    ensures HullOf(ns + [n], Widen(h, n))
  {
    assert n.maxAligned > 0;
  }

  // ---- Range search ----

  /** The documents a filter on the field selects. */
  ghost predicate Matches(numeric: bool, v: Bytes, lower: Bytes, upper: Bytes) {
    if numeric then v != [] && lower != [] && upper != [] && Signed(lower) <= Signed(v) <= Signed(upper)
    else SharesTag(v, lower)
  }

  ghost predicate SharesTag(v: Bytes, tags: Bytes) {
    exists t :: t in TagsOf(tags) && t in TagsOf(CString(v))
  }

  function NodesAt(nodes: Nodes, keys: seq<Bytes>): (r: seq<Node>)
    requires forall i :: 0 <= i < |keys| ==> keys[i] in nodes
    ensures |r| == |keys| && forall i :: 0 <= i < |r| ==> r[i] == nodes[keys[i]]
  {
    seq(|keys|, i requires 0 <= i < |keys| => nodes[keys[i]])
  }

  /** A document is in some scanned node iff its number lies between the bounds. */
  lemma ScanMeaning(nodes: Nodes, vals: Values, width: nat, lower: Bytes, upper: Bytes, keys: seq<Bytes>, d: nat)
    requires Agrees(true, nodes, vals) && width > 0 && |lower| == width == |upper|
    requires forall e :: e in vals ==> Fits(true, width, vals[e])
    requires Scanned(nodes, Encode(lower), Encode(upper), keys)
    ensures InSome(NodesAt(nodes, keys), d) <==> d in vals && Matches(true, vals[d], lower, upper)
  {
    hide RangeNode.Docs, Signed, Encode, Less;
    if InSome(NodesAt(nodes, keys), d) {
      var i :| 0 <= i < |keys| && d in RangeNode.Docs(NodesAt(nodes, keys)[i]);
      assert d in IdsAt(nodes, keys[i]);
      OrderEmbedding(vals[d], lower);
      OrderEmbedding(upper, vals[d]);
    }
    if d in vals && Matches(true, vals[d], lower, upper) {
      var k := Encode(vals[d]);
      OrderEmbedding(vals[d], lower);
      OrderEmbedding(upper, vals[d]);
      assert k in KeysOf(true, vals[d]);
      assert d in IdsAt(nodes, k);
      var i :| 0 <= i < |keys| && keys[i] == k;
      assert d in RangeNode.Docs(NodesAt(nodes, keys)[i]);
    }
  }

  // ---- Tag search ----

  /** Two nodes a tag search cannot merge: a bitmap from 0 on that lost all its ids, and a list
      with one id behind it. The bounds of the result are those of the list alone. */
  method EmptiedOutside() returns (ns: seq<Node>)
    ensures AllValid(ns) && |ns| == 2 && !TagSafe(ns) && TotalSize(ns) > 0
  {
    hide RangeNode.Docs, RangeNode.Shaped;
    var emptied := RangeNode.EmptiedBitmap();
    RangeNode.EmptyNode();
    var other := RangeNode.Add(RangeNode.EMPTY, 200000);
    ns := [emptied, other];
    OneDoc(other, 200000);
    assert ns[0] == emptied && ns[1] == other;
    assert other.minAligned > 0;
    assert !Spanned(ns, emptied) by {
      assert ns[1].size > 0;
    }
    TotalSizeNone(ns);
  }

  lemma OneDoc(n: Node, d: nat)
    requires RangeNode.Valid(n) && RangeNode.Docs(n) == {} + {d}
    ensures n.size == 1
  {
    assert RangeNode.Docs(n) == {d};
  }

  /** Merging stays inside the bitmap: an emptied dense node is not counted in the bounds but
      merged all the same, so the non-empty nodes found must span it. */
  ghost predicate TagSafe(ns: seq<Node>) {
    forall i :: 0 <= i < |ns| && ns[i].store.Dense? && ns[i].size == 0 ==> Spanned(ns, ns[i])
  }

  ghost predicate Spanned(ns: seq<Node>, n: Node) {
    (forall i :: 0 <= i < |ns| ==> ns[i].size == 0) ||
    (exists i, j :: 0 <= i < |ns| && 0 <= j < |ns| && ns[i].size > 0 && ns[j].size > 0 &&
                    ns[i].minAligned <= n.minAligned && n.maxAligned <= ns[j].maxAligned)
  }

  /** The bounds over the non-empty ones of the first n nodes, attained by nodes p and q. */
  ghost predicate TagHull(ns: seq<Node>, n: nat, lo: nat, hi: int, any: bool, p: nat, q: nat) {
    && n <= |ns|
    && (forall i :: 0 <= i < n && ns[i].size > 0 ==> any && Inside(ns[i], lo, hi))
    && (!any ==> lo == RangeNode.MAX_INT && hi == 0)
    && (any ==> p < n && q < n && ns[p].size > 0 && ns[q].size > 0)
    && (any ==> ns[p].minAligned == lo && ns[q].maxAligned == hi)
  }

  method TagBounds(ns: seq<Node>) returns (lo: nat, hi: int, ghost any: bool, ghost p: nat, ghost q: nat)
    requires AllValid(ns)
    ensures TagHull(ns, |ns|, lo, hi, any, p, q)
  {
    hide AllValid;
    lo, hi, any, p, q := RangeNode.MAX_INT, 0, false, 0, 0;
    for i := 0 to |ns|
      invariant TagHull(ns, i, lo, hi, any, p, q)
    {
      if ns[i].size > 0 {
        RangedAt(ns, i);
        p := if !any || ns[i].minAligned < lo then i else p;
        q := if !any || ns[i].maxAligned > hi then i else q;
        lo := if ns[i].minAligned < lo then ns[i].minAligned else lo;
        hi := if ns[i].maxAligned > hi then ns[i].maxAligned else hi;
        any := true;
      }
    }
  }

  lemma RangedAt(ns: seq<Node>, i: nat)
    requires AllValid(ns) && i < |ns|
    ensures ns[i].minAligned <= RangeNode.MAX_INT && 0 < ns[i].maxAligned && ns[i].minAligned <= ns[i].maxAligned
    ensures ns[i].minAligned % OP_LEN == 0 && (ns[i].maxAligned + 1) % OP_LEN == 0
  {
    hide RangeNode.Valid;
    assert RangeNode.Ranged(ns[i]);
  }

  lemma HullAligned(ns: seq<Node>, lo: nat, hi: int, any: bool, p: nat, q: nat)
    requires AllValid(ns) && TagHull(ns, |ns|, lo, hi, any, p, q) && any
    ensures lo <= hi && lo <= RangeNode.MAX_INT && lo % OP_LEN == 0 && (hi + 1) % OP_LEN == 0
  {
    hide AllValid;
    RangedAt(ns, p);
    RangedAt(ns, q);
    assert Inside(ns[p], lo, hi);
  }

  /** The merge stays inside the bounds if and only if the nodes are safe. */
  lemma HullSpans(ns: seq<Node>, lo: nat, hi: int, any: bool, p: nat, q: nat)
    requires TagHull(ns, |ns|, lo, hi, any, p, q) && any
    ensures TagSafe(ns) <==> AllInside(ns, lo, hi)
  {
    if TagSafe(ns) {
      forall i | 0 <= i < |ns| && (ns[i].store.Dense? || ns[i].size > 0) ensures Inside(ns[i], lo, hi) {
        if ns[i].size == 0 {
          assert Spanned(ns, ns[i]);
        }
      }
    }
    if AllInside(ns, lo, hi) {
      forall i | 0 <= i < |ns| && ns[i].store.Dense? && ns[i].size == 0 ensures Spanned(ns, ns[i]) {
        assert Inside(ns[i], lo, hi);
        assert ns[p].minAligned <= ns[i].minAligned && ns[i].maxAligned <= ns[q].maxAligned;
      }
    }
  }

  lemma NoneSafe(ns: seq<Node>, lo: nat, hi: int, any: bool, p: nat, q: nat)
    requires TagHull(ns, |ns|, lo, hi, any, p, q) && !any
    ensures TagSafe(ns) && TotalSize(ns) == 0
  {
    TotalSizeNone(ns);
  }

  lemma HullAny(ns: seq<Node>, lo: nat, hi: int, any: bool, p: nat, q: nat)
    requires TagHull(ns, |ns|, lo, hi, any, p, q)
    ensures any <==> TotalSize(ns) > 0
  {
    TotalSizeNone(ns);
  }

  lemma {:induction false} TotalSizeNone(ns: seq<Node>)
    ensures TotalSize(ns) == 0 <==> forall i :: 0 <= i < |ns| ==> ns[i].size == 0
    decreases |ns|
  {
    if ns != [] {
      TotalSizeNone(ns[..|ns| - 1]);
    }
  }

  /** Outside the bounds the word loop would leave the bitmap, at one end or the other. */
  lemma OutsideHull(n: Node, lo: nat, hi: nat)
    requires RangeNode.Ranged(n) && lo <= hi && lo % OP_LEN == 0 && (hi + 1) % OP_LEN == 0
    ensures Inside(n, lo, hi) <==>
              lo <= n.minAligned &&
              WORD * ((n.minAligned - lo) / OP_LEN + (n.maxAligned - n.minAligned + 1) / OP_LEN) <= ByteCount(hi - lo + 1)
  {
    RangeNode.WordsOf(n);
    RangeNode.Gap(lo, hi + 1);
    if lo <= n.minAligned {
      RangeNode.Gap(lo, n.minAligned);
      var end := n.maxAligned + 1 - lo;
      assert WORD * ((n.minAligned - lo) / OP_LEN + (n.maxAligned - n.minAligned + 1) / OP_LEN) * 8 == end;
      assert ByteCount(hi - lo + 1) == WORD * ((hi + 1 - lo) / OP_LEN) + 1;
    }
  }

  /** The nodes of the tags that have one. */
  ghost function Found(nodes: Nodes, tags: seq<Bytes>): seq<Node> {
    if tags == [] then []
    else
      var last := tags[|tags| - 1];
      Found(nodes, tags[..|tags| - 1]) + if last in nodes then [nodes[last]] else []
  }

  /** What tag search needs of the nodes: a safe merge, and a total that fits an int. */
  ghost predicate TagsFit(nodes: Nodes, tags: Bytes) {
    TagSafe(Found(nodes, TagsOf(tags))) && TotalSize(Found(nodes, TagsOf(tags))) < RangeNode.MAX_INT
  }

  lemma {:induction false} AtMostBound(s: set<nat>, n: nat)
    requires forall x :: x in s ==> x < n
    ensures |s| <= n
    decreases n
  {
    if n == 0 {
      assert s == {};
    } else {
      AtMostBound(s - {n - 1}, n - 1);
      if n - 1 in s {
        OneLess(s, n - 1);
      } else {
        assert s - {n - 1} == s;
      }
    }
  }

  lemma FoundOne(nodes: Nodes, t: Bytes)
    ensures Found(nodes, [t]) == if t in nodes then [nodes[t]] else []
  {
    var ts := [t];
    assert ts[..|ts| - 1] == [] && ts[|ts| - 1] == t;
    assert Found(nodes, ts) == Found(nodes, []) + if t in nodes then [nodes[t]] else [];
  }

  lemma OneNodeFits(n: Node)
    requires RangeNode.Valid(n) && RangeNode.Ranged(n)
    ensures TotalSize([n]) == n.size < RangeNode.MAX_INT
  {
    hide RangeNode.Docs;
    var f := [n];
    assert f[..|f| - 1] == [];
    AtMostBound(RangeNode.Docs(n), RangeNode.TOP);
  }

  /** For a single tag both hold in every index. */
  lemma OneTagFits(nodes: Nodes, t: Bytes)
    requires NodesOk(nodes) && IsTag(t)
    ensures TagsFit(nodes, t)
  {
    hide RangeNode.Docs, RangeNode.Valid, RangeNode.Ranged, IsTag, Found, TagsOf;
    OneTag(t);
    FoundOne(nodes, t);
    if t in nodes {
      OneNodeFits(nodes[t]);
    }
  }

  lemma {:induction false} FoundMeaning(nodes: Nodes, vals: Values, tags: seq<Bytes>, d: nat)
    requires NodesOk(nodes) && Agrees(false, nodes, vals)
    ensures AllValid(Found(nodes, tags))
    ensures InSome(Found(nodes, tags), d) <==> d in vals && exists t :: t in tags && t in TagsOf(CString(vals[d]))
    decreases |tags|
  {
    hide RangeNode.Docs, RangeNode.Valid, RangeNode.Ranged, TagsOf;
    if tags != [] {
      var rest, last := tags[..|tags| - 1], tags[|tags| - 1];
      FoundMeaning(nodes, vals, rest, d);
      assert tags == rest + [last];
      assert d in IdsAt(nodes, last) <==> d in vals && last in KeysOf(false, vals[d]);
      var f := Found(nodes, tags);
      if last in nodes {
        assert f[..|f| - 1] == Found(nodes, rest);
        InSomeLast(f);
      } else {
        assert f == Found(nodes, rest);
      }
    }
  }

  /** What a search answers: 0 only if nothing matches, else the ids of the matching documents. */
  ghost predicate Answers(numeric: bool, vals: Values, lower: Bytes, upper: Bytes, ret: int, r: Result) {
    && ret >= 0
    && (ret == 0 ==> forall d :: d in vals ==> !Matches(numeric, vals[d], lower, upper))
    && (ret > 0 ==> Sealed(r) && !r.notIn && r.docNum >= 0)
    && (ret > 0 ==> forall d: nat :: d in Docs(r) <==> d in vals && Matches(numeric, vals[d], lower, upper))
    && (ret > 0 && r.docNum == 0 ==> Docs(r) == {})
  }

  /** There is no key between the bounds. */
  ghost predicate NoKeys(nodes: Nodes, lower: Bytes, upper: Bytes) {
    lower == [] || upper == [] || forall k :: k in nodes ==> !Between(Encode(lower), k, Encode(upper))
  }

  class FieldRangeIndex {
    const numeric: bool
    const width: nat
    var nodes: Nodes
    var order: seq<Bytes>
    /** The indexed documents and the raw values they are indexed by. */
    ghost var vals: Values

    ghost predicate Valid()
      reads this
    {
      && NodesOk(nodes) && Listing(order, nodes)
      && Agrees(numeric, nodes, vals)
      && forall d :: d in vals ==> Fits(numeric, width, vals[d])
    }

    constructor (numeric: bool, width: nat)
      ensures Valid() && vals == map[] && this.numeric == numeric && this.width == width
    {
      this.numeric, this.width := numeric, width;
      nodes, order, vals := map[], [], map[];
    }

    method KeysFor(value: Bytes) returns (keys: seq<Bytes>)
      requires Fits(numeric, width, value)
      ensures keys == KeysOf(numeric, value) && Distinct(keys)
    {
      if numeric {
        var key := ReverseEndian(value);
        keys := [key];
      } else {
        keys := Split(CString(value));
      }
    }

    /** Indexing a new document. */
    method Add(value: Bytes, doc: nat)
      requires Valid() && doc !in vals && Fits(numeric, width, value)
      requires forall k :: k in KeysOf(numeric, value) ==> TakesAt(nodes, k, doc)
      modifies this
      ensures Valid() && vals == old(vals)[doc := value]
    {
      hide Listing, NodesOk, IdsAt, KeysOf, Fits, TakesAt;
      var keys := KeysFor(value);
      ghost var before := nodes;
      for i := 0 to |keys|
        invariant NodesOk(nodes) && Listing(order, nodes) && vals == old(vals)
        invariant forall k :: IdsAt(nodes, k) == if k in keys[..i] then IdsAt(before, k) + {doc} else IdsAt(before, k)
        invariant forall j :: i <= j < |keys| ==> TakesAt(nodes, keys[j], doc)
      {
        assert keys[i] !in keys[..i];
        assert doc !in IdsAt(before, keys[i]);
        assert keys[..i + 1] == keys[..i] + [keys[i]];
        nodes, order := InsertToBt(nodes, order, keys[i], doc);
      }
      assert keys[..|keys|] == keys;
      vals := vals[doc := value];
    }

    /** Taking a document out again, by the value it was indexed with. */
    method Delete(value: Bytes, doc: nat)
      requires Valid() && doc in vals && vals[doc] == value
      modifies this
      ensures Valid() && vals == old(vals) - {doc}
    {
      hide Sorted, NodesOk, IdsAt, KeysOf, Fits;
      var keys := KeysFor(value);
      ghost var before := nodes;
      for i := 0 to |keys|
        invariant NodesOk(nodes) && Listing(order, nodes) && vals == old(vals)
        invariant forall k :: IdsAt(nodes, k) == if k in keys[..i] then IdsAt(before, k) - {doc} else IdsAt(before, k)
      {
        assert keys[i] !in keys[..i];
        assert doc in IdsAt(before, keys[i]);
        assert keys[..i + 1] == keys[..i] + [keys[i]];
        nodes := DeleteFromBt(nodes, keys[i], doc);
      }
      assert keys[..|keys|] == keys;
      vals := vals - {doc};
    }

    /** The numbers between two bounds, both included. */
    method SearchRange(lower: Bytes, upper: Bytes) returns (ret: int, r: Result)
      requires Valid() && numeric && |lower| == width == |upper| && width > 0
      ensures Answers(numeric, vals, lower, upper, ret, r) && ret <= RangeNode.TOP
      ensures ret == 0 <==> NoKeys(nodes, lower, upper)
    {
      hide RangeNode.Valid, RangeNode.Docs, RangeNode.Ranged, Matches, Encode, Agrees, Listing, Fits;
      var low := ReverseEndian(lower);
      var high := ReverseEndian(upper);
      var keys := Scan(order, nodes, low, high);
      var ns := NodesAt(nodes, keys);
      var h := Hull(RangeNode.MAX_INT, 0, RangeNode.MAX_INT, 0);
      for i := 0 to |ns|
        invariant HullOf(ns[..i], h)
      {
        WidenHull(ns[..i], h, ns[i]);
        assert ns[..i + 1] == ns[..i] + [ns[i]];
        h := Widen(h, ns[i]);
      }
      assert ns[..|ns|] == ns;
      forall d: nat ensures InSome(ns, d) <==> d in vals && Matches(numeric, vals[d], lower, upper) {
        ScanMeaning(nodes, vals, width, lower, upper, keys, d);
      }
      r := CLEARED;
      if h.maxDoc - h.minDoc + 1 <= 0 {
        assert ns == [];
        return 0, r;
      }
      var ok;
      ok, r := Gather(h.minAligned, h.maxAligned, ns);
      TotalSizeZero(ns);
      ret := h.maxDoc - h.minDoc + 1;
    }

    /** The documents that have any of the tags, unless the merge leaves the bitmap or the
        total does not fit an int (`ok` is false). */
    method SearchTags(tags: Bytes) returns (ok: bool, ret: int, r: Result)
      requires Valid() && !numeric
      ensures ok <==> TagsFit(nodes, tags)
      ensures ok ==> Answers(numeric, vals, tags, [], ret, r) && ret < RangeNode.MAX_INT
      ensures ok ==> (ret == 0 <==> forall d :: d in vals ==> !SharesTag(vals[d], tags))
    {
      hide RangeNode.Valid, RangeNode.Docs, RangeNode.Ranged, Agrees, Listing, Fits, TagsOf, TagHull, TagSafe;
      var items := Split(tags);
      var ns := [];
      for i := 0 to |items|
        invariant ns == Found(nodes, items[..i])
      {
        assert items[..i + 1][..i] == items[..i];
        if items[i] in nodes {
          ns := ns + [nodes[items[i]]];
        }
      }
      assert items[..|items|] == items;
      forall d: nat ensures InSome(ns, d) <==> d in vals && Matches(numeric, vals[d], tags, []) {
        FoundMeaning(nodes, vals, items, d);
      }
      FoundMeaning(nodes, vals, items, 0);
      TotalSizeZero(ns);
      r := CLEARED;
      var lo, hi; ghost var any, p, q;
      lo, hi, any, p, q := TagBounds(ns);
      HullAny(ns, lo, hi, any, p, q);
      if any {
        HullAligned(ns, lo, hi, any, p, q);
        HullSpans(ns, lo, hi, any, p, q);
      }
      NoHull(ns, lo, hi, any, p, q);
      if hi - lo + 1 <= 0 {
        NoneSafe(ns, lo, hi, any, p, q);
        return true, 0, r;
      }
      ok, r := Gather(lo, hi, ns);
      if !ok || r.docNum >= RangeNode.MAX_INT {
        return false, 0, r;
      }
      ret := r.docNum;
    }

    /** No key in the range, or no document with any of the tags. */
    ghost predicate Nothing(lower: Bytes, upper: Bytes)
      reads this
    {
      if numeric then NoKeys(nodes, lower, upper) else forall d :: d in vals ==> !SharesTag(vals[d], lower)
    }

    method Search(lower: Bytes, upper: Bytes) returns (ok: bool, ret: int, r: Result)
      requires Valid() && (numeric ==> |lower| == width == |upper| && width > 0)
      ensures ok <==> numeric || TagsFit(nodes, lower)
      ensures ok ==> Answers(numeric, vals, lower, upper, ret, r) && ret < RangeNode.MAX_INT
      ensures ok ==> (ret == 0 <==> Nothing(lower, upper))
    {
      hide TagsFit, TagsOf, NoKeys;
      if !numeric {
        ok, ret, r := SearchTags(lower);
      } else {
        ok := true;
        ret, r := SearchRange(lower, upper);
      }
    }
  }

  lemma NoHull(ns: seq<Node>, lo: nat, hi: int, any: bool, p: nat, q: nat)
    requires TagHull(ns, |ns|, lo, hi, any, p, q)
    ensures !any ==> hi - lo + 1 <= 0
  {
  }
}
