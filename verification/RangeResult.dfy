/** The ids a filter selects, as a bitmap over word-aligned bounds. */
module RangeResult {
  import opened Arithmetic
  import opened Bitmap
  import opened Lists
  import Node = RangeNode

  datatype Result = Result(min: nat, max: nat, minAligned: nat, maxAligned: nat, docNum: int, bits: Bits, notIn: bool)

  const CLEARED := Result(Node.MAX_INT, 0, 0, 0, -1, [], false)

  function SetRange(r: Result, x: nat, y: nat): (s: Result)
    ensures s.min <= x && s.min <= r.min && s.min in {x, r.min} && s.max >= y && s.max >= r.max && s.max in {y, r.max}
  {
    var min := if x < r.min then x else r.min;
    var max := if y > r.max then y else r.max;
    r.(min := min, max := max, minAligned := min / 8 * 8, maxAligned := (max / 8 + 1) * 8 - 1)
  }

  function Width(r: Result): nat
    requires r.minAligned <= r.maxAligned
  {
    r.maxAligned - r.minAligned + 1
  }

  /** As every search leaves it: bounds on word boundaries, and a bitmap for them. */
  ghost predicate Sealed(r: Result) {
    && r.min == r.minAligned <= r.maxAligned == r.max && r.min <= Node.MAX_INT
    && r.minAligned % OP_LEN == 0 && (r.maxAligned + 1) % OP_LEN == 0
    && |r.bits| == ByteCount(Width(r))
  }

  ghost function Docs(r: Result): set<nat>
    requires Sealed(r)
  {
    Ids(r.bits, r.minAligned, Width(r))
  }

  predicate Has(r: Result, doc: nat)
    requires Sealed(r)
  {
    if r.notIn then
      if doc < r.min || doc > r.max then true else !Test(r.bits, doc - r.minAligned)
    else
      if doc < r.min || doc > r.max then false else Test(r.bits, doc - r.minAligned)
  }

  lemma HasIsDocs(r: Result, doc: nat)
    requires Sealed(r)
    ensures Has(r, doc) <==> if r.notIn then doc !in Docs(r) else doc in Docs(r)
  {
    hide Test;
    assert doc in Docs(r) <==> doc <= r.maxAligned && At(r.bits, r.minAligned, doc);
  }

  /** A fresh result over word-aligned bounds keeps them, though it aligns to bytes only. */
  lemma RangeSealed(lo: nat, hi: nat)
    requires lo <= hi && lo <= Node.MAX_INT && lo % OP_LEN == 0 && (hi + 1) % OP_LEN == 0
    ensures var r := SetRange(CLEARED, lo, hi);
            r.min == r.minAligned == lo && r.max == r.maxAligned == hi
  {
    ByteAligned(lo, hi);
  }

  lemma ByteAligned(lo: nat, hi: nat)
    requires lo % OP_LEN == 0 && (hi + 1) % OP_LEN == 0
    ensures lo / 8 * 8 == lo && (hi / 8 + 1) * 8 - 1 == hi
  {
    var k, m := lo / OP_LEN, (hi + 1) / OP_LEN;
    DivFloor(lo, OP_LEN);
    DivFloor(hi + 1, OP_LEN);
    DivUnique(lo, 8, 8 * k, 0);
    DivUnique(hi, 8, 8 * m - 1, 7);
  }

  // ---- Gathering nodes ----

  ghost predicate InSome(ns: seq<Node.Node>, d: nat) {
    exists i :: 0 <= i < |ns| && d in Node.Docs(ns[i])
  }

  ghost predicate AllValid(ns: seq<Node.Node>) {
    forall i :: 0 <= i < |ns| ==> Node.Valid(ns[i]) && Node.Ranged(ns[i])
  }

  function TotalSize(ns: seq<Node.Node>): nat {
    if ns == [] then 0 else TotalSize(ns[..|ns| - 1]) + ns[|ns| - 1].size
  }

  lemma {:induction false} TotalSizeZero(ns: seq<Node.Node>)
    requires AllValid(ns)
    ensures TotalSize(ns) == 0 <==> forall d: nat :: !InSome(ns, d)
    decreases |ns|
  {
    if ns != [] {
      var rest, last := ns[..|ns| - 1], ns[|ns| - 1];
      assert AllValid(rest);
      TotalSizeZero(rest);
      InSomeLast(ns);
      hide InSome, Node.Docs;
      assert last.size == |Node.Docs(last)|;
      if TotalSize(ns) != 0 {
        if last.size > 0 {
          var d :| d in Node.Docs(last);
          assert InSome(ns, d);
        } else {
          var d: nat :| InSome(rest, d);
          assert InSome(ns, d);
        }
      }
    }
  }

  lemma InSomeLast(ns: seq<Node.Node>)
    requires ns != []
    ensures forall d: nat :: InSome(ns, d) <==> InSome(ns[..|ns| - 1], d) || d in Node.Docs(ns[|ns| - 1])
  {
    hide Node.Docs;
    var rest, last := ns[..|ns| - 1], ns[|ns| - 1];
    forall d: nat ensures InSome(ns, d) <==> InSome(rest, d) || d in Node.Docs(last) {
      if InSome(rest, d) {
        var i :| 0 <= i < |rest| && d in Node.Docs(rest[i]);
        assert d in Node.Docs(ns[i]);
      }
      if InSome(ns, d) {
        var i :| 0 <= i < |ns| && d in Node.Docs(ns[i]);
        if i < |rest| {
          assert d in Node.Docs(rest[i]);
        }
      }
    }
  }

  predicate Inside(n: Node.Node, lo: nat, hi: int) {
    lo <= n.minAligned && n.maxAligned <= hi
  }

  /** The merge of one node: words are ORed in, or listed ids set one by one. */
  method MergeNode(bitmap: array<bv8>, lo: nat, hi: nat, n: Node.Node)
    requires Node.Valid(n) && Node.Ranged(n) && lo <= hi && lo % OP_LEN == 0 && (hi + 1) % OP_LEN == 0
    requires bitmap.Length == ByteCount(hi - lo + 1)
    requires n.store.Dense? || n.size > 0 ==> Inside(n, lo, hi)
    modifies bitmap
    ensures Ids(bitmap[..], lo, hi - lo + 1) == old(Ids(bitmap[..], lo, hi - lo + 1)) + Node.Docs(n)
  {
    hide Ids, Test, SetBit;
    if n.store.Dense? {
      var off, words := (n.minAligned - lo) / OP_LEN, (n.maxAligned - n.minAligned + 1) / OP_LEN;
      Node.Gap(lo, n.minAligned);
      Node.WordsOf(n);
      OrWords(bitmap, off, n.store.bits, words);
      OredIds(old(bitmap[..]), bitmap[..], n.store.bits, WORD * off, WORD * words, lo, hi - lo + 1);
    } else {
      SetListed(bitmap, lo, hi, n);
    }
  }

  method SetListed(bitmap: array<bv8>, lo: nat, hi: nat, n: Node.Node)
    requires Node.Valid(n) && n.store.Sparse? && lo <= hi && bitmap.Length == ByteCount(hi - lo + 1)
    requires n.size > 0 ==> Node.Ranged(n) && Inside(n, lo, hi)
    modifies bitmap
    ensures Ids(bitmap[..], lo, hi - lo + 1) == old(Ids(bitmap[..], lo, hi - lo + 1)) + Node.Docs(n)
  {
    hide Ids, At, SetBit, Elements;
    var data := n.store.data;
    ghost var before := Ids(bitmap[..], lo, hi - lo + 1);
    assert data[..0] == [];
    Node.NoElements();
    for j := 0 to n.size
      invariant bitmap.Length == ByteCount(hi - lo + 1)
      invariant Ids(bitmap[..], lo, hi - lo + 1) == before + Elements(data[..j])
    {
      Node.OneMoreElement(data, j, n.size);
      ListedInside(n, j, lo, hi);
      AddOne(before, Elements(data[..j]), data[j]);
      Mark(bitmap, lo, hi - lo + 1, data[j]);
    }
  }

  lemma ListedInside(n: Node.Node, j: nat, lo: nat, hi: nat)
    requires Node.Valid(n) && n.store.Sparse? && j < n.size && Node.Ranged(n) && Inside(n, lo, hi)
    ensures lo <= n.store.data[j] <= hi
  {
    Node.OneMoreElement(n.store.data, j, n.size);
  }

  /** Every node whose words or ids are merged lies inside the bounds. */
  ghost predicate AllInside(ns: seq<Node.Node>, lo: nat, hi: int) {
    forall i :: 0 <= i < |ns| && (ns[i].store.Dense? || ns[i].size > 0) ==> Inside(ns[i], lo, hi)
  }

  /** All nodes merged into a new bitmap: exactly the ids that some node holds. A merge that
      would leave the bitmap ends with `ok` false. */
  method Gather(lo: nat, hi: nat, ns: seq<Node.Node>) returns (ok: bool, r: Result)
    requires AllValid(ns) && lo <= hi && lo <= Node.MAX_INT && lo % OP_LEN == 0 && (hi + 1) % OP_LEN == 0
    ensures ok <==> AllInside(ns, lo, hi)
    ensures ok ==> Sealed(r) && !r.notIn && r.docNum == TotalSize(ns)
    ensures ok ==> forall d: nat :: d in Docs(r) <==> InSome(ns, d)
  {
    hide Ids, Node.Valid, Node.Docs, Node.Ranged;
    RangeSealed(lo, hi);
    r := SetRange(CLEARED, lo, hi);
    var bitmap := Create(hi - lo + 1);
    ClearNone(bitmap[..], lo, hi - lo + 1);
    var total := 0;
    for i := 0 to |ns|
      invariant AllValid(ns[..i]) && total == TotalSize(ns[..i]) && AllInside(ns[..i], lo, hi)
      invariant bitmap.Length == ByteCount(hi - lo + 1)
      invariant forall d: nat :: d in Ids(bitmap[..], lo, hi - lo + 1) <==> InSome(ns[..i], d)
    {
      if (ns[i].store.Dense? || ns[i].size > 0) && !Inside(ns[i], lo, hi) {
        return false, r;
      }
      MergeNode(bitmap, lo, hi, ns[i]);
      total := total + ns[i].size;
      assert ns[..i + 1][..i] == ns[..i];
      InSomeLast(ns[..i + 1]);
    }
    assert ns[..|ns|] == ns;
    r := r.(bits := bitmap[..], docNum := total);
    ok := true;
  }
}
