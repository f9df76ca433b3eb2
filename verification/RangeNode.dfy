/** The document ids of one key: a list while they are few for their range, a bitmap over
    word-aligned bounds while they are many. Freeing replaced buffers is not modelled. */
module RangeNode {
  import opened Bitmap
  import opened Lists

  const MAX_INT: nat := 0x7FFF_FFFF
  /** From this id on, the upper bound of the word would not fit an int. */
  const TOP: nat := 0x7FFF_FFC0
  /** From this id on, the spare room a bitmap takes above would not fit an int. */
  const MAX_DOC: nat := 0x4000_0000

  /** data_dense_, or data_sparse_ with its capacity_ slots. */
  datatype Store = Dense(bits: Bits) | Sparse(data: seq<nat>)

  datatype Node = Node(size: nat, min: nat, max: int, minAligned: nat, maxAligned: int, store: Store)

  const EMPTY := Node(0, MAX_INT, -1, MAX_INT, -1, Sparse([]))

  function Low(val: nat): nat {
    val / OP_LEN * OP_LEN
  }

  function High(val: nat): nat {
    (val / OP_LEN + 1) * OP_LEN - 1
  }

  ghost predicate Ranged(n: Node) {
    && n.minAligned <= n.min <= n.max <= n.maxAligned <= MAX_INT && n.max < TOP
    && n.minAligned % OP_LEN == 0 && (n.maxAligned + 1) % OP_LEN == 0
  }

  /** The bits the bounds span. */
  function Width(n: Node): nat
    requires n.minAligned <= n.maxAligned
  {
    n.maxAligned - n.minAligned + 1
  }

  ghost function Docs(n: Node): set<nat> {
    match n.store
    case Dense(bits) => if n.minAligned <= n.maxAligned then Ids(bits, n.minAligned, Width(n)) else {}
    case Sparse(data) => if n.size <= |data| then Elements(data[..n.size]) else {}
  }

  ghost predicate Shaped(n: Node) {
    match n.store
    case Dense(bits) => Ranged(n) && |bits| == ByteCount(Width(n))
    case Sparse(data) =>
      && n.size <= |data| && NoDup(data[..n.size])
      && (Ranged(n) || (n.size == 0 && n.minAligned == n.min == MAX_INT && n.maxAligned == n.max == -1))
  }

  /** size_ counts the ids, and the bounds contain them. */
  ghost predicate Valid(n: Node) {
    && Shaped(n)
    && n.size == |Docs(n)|
    && forall d: nat :: d in Docs(n) ==> n.min <= d <= n.max
  }

  lemma Aligned(val: nat)
    ensures val < TOP <==> (val / OP_LEN + 1) * OP_LEN <= MAX_INT
    ensures val < TOP ==> High(val) < TOP
    ensures Low(val) <= val <= High(val) && Low(val) % OP_LEN == 0 && (High(val) + 1) % OP_LEN == 0
  {
  }

  lemma AlignedTwice(val: nat)
    ensures val <= (val / OP_LEN + 1) * OP_LEN * 2 - 1 && ((val / OP_LEN + 1) * OP_LEN * 2) % OP_LEN == 0
    ensures val < MAX_DOC <==> (val / OP_LEN + 1) * OP_LEN * 2 - 1 <= MAX_INT
  {
  }

  lemma Assemble(r: Node, s: set<nat>)
    requires Shaped(r) && Docs(r) == s && r.size == |s| && forall d: nat :: d in s ==> r.min <= d <= r.max
    ensures Valid(r)
  {
  }

  /** The bounds of n, widened to the new id. */
  ghost predicate Stretched(n: Node, val: nat, r: Node) {
    && r.min == (if val < n.min then val else n.min)
    && r.max == if val > n.max then val else n.max
  }

  // ---- Bitmap form ----

  lemma SetKeeps(n: Node, bits: Bits, r: Node, val: nat)
    requires Ranged(r) && r.minAligned <= val <= r.maxAligned && r.min <= val <= r.max && r.size == n.size + 1
    requires Valid(n) && val !in Docs(n) && r.min <= n.min && n.max <= r.max
    requires |bits| == ByteCount(Width(r)) && Ids(bits, r.minAligned, Width(r)) == Docs(n)
    requires r.store == Dense(SetBit(bits, val - r.minAligned))
    ensures Valid(r) && Docs(r) == Docs(n) + {val}
  {
    hide SetBit, Ids, Elements, NoDup, ByteCount, At;
    var s := Docs(n);
    SetIds(bits, val - r.minAligned, r.minAligned, Width(r));
    assert Docs(r) == s + {val};
    OneMore(s, val);
  }

  method AddDense(n: Node, val: nat) returns (r: Node)
    requires Valid(n) && n.store.Dense? && val !in Docs(n) && val < TOP
    requires n.size > 0 && val > n.maxAligned ==> val < MAX_DOC
    ensures Valid(r) && r.store.Dense? && Docs(r) == Docs(n) + {val} && Ranged(r)
    ensures n.size > 0 ==> Stretched(n, val, r)
  {
    Aligned(val);
    if n.size == 0 {
      r := FirstDense(n, val);
    } else if val < n.minAligned {
      r := GrowDown(n, val);
    } else if val > n.maxAligned {
      r := GrowUp(n, val);
    } else {
      r := n.(size := n.size + 1,
              min := if val < n.min then val else n.min,
              max := if val > n.max then val else n.max,
              store := Dense(SetBit(n.store.bits, val - n.minAligned)));
      SetKeeps(n, n.store.bits, r, val);
    }
  }

  method FirstDense(n: Node, val: nat) returns (r: Node)
    requires Valid(n) && n.size == 0 && val < TOP
    ensures Valid(r) && r.store.Dense? && Docs(r) == Docs(n) + {val}
  {
    hide SetBit, Ids, Test;
    Aligned(val);
    var bitmap := Create(High(val) - Low(val) + 1);
    ClearNone(bitmap[..], Low(val), High(val) - Low(val) + 1);
    SetIds(bitmap[..], val - Low(val), Low(val), High(val) - Low(val) + 1);
    Set(bitmap, val - Low(val));
    r := Node(1, val, val, Low(val), High(val), Dense(bitmap[..]));
    assert Docs(n) == {};
    assert Docs(r) == {val};
  }

  lemma WordsOf(n: Node)
    requires Ranged(n)
    ensures WORD * (Width(n) / OP_LEN) * 8 == Width(n)
  {
  }

  lemma Gap(a: nat, b: nat)
    requires a <= b && a % OP_LEN == 0 && b % OP_LEN == 0
    ensures a + WORD * ((b - a) / OP_LEN) * 8 == b
  {
  }

  /** Room below: the words move up by the difference of the lower bounds. */
  method GrowDown(n: Node, val: nat) returns (r: Node)
    requires Valid(n) && n.store.Dense? && val < n.minAligned && val !in Docs(n)
    ensures Valid(r) && r.store.Dense? && Docs(r) == Docs(n) + {val} && Stretched(n, val, r)
  {
    hide SetBit, Ids, At, Copied, Clear, Elements, NoDup, Between;
    Aligned(val);
    var low := Low(val);
    var width := n.maxAligned - low + 1;
    var bitmap := Create(width);
    ghost var clear := bitmap[..];
    var off := (n.minAligned - low) / OP_LEN;
    Gap(low, n.minAligned);
    WordsOf(n);
    CopyWords(bitmap, off, n.store.bits, 0, Width(n) / OP_LEN);
    CopiedIds(clear, bitmap[..], n.store.bits, WORD * off, 0, WORD * (Width(n) / OP_LEN), low, width, n.minAligned);
    BetweenAll(n.store.bits, n.minAligned, Width(n));
    ghost var moved := bitmap[..];
    Set(bitmap, val - low);
    r := Node(n.size + 1, val, n.max, low, n.maxAligned, Dense(bitmap[..]));
    SetKeeps(n, moved, r, val);
  }

  /** Room above, twice as far as needed: the words stay where they are. */
  method GrowUp(n: Node, val: nat) returns (r: Node)
    requires Valid(n) && n.store.Dense? && val > n.maxAligned && val !in Docs(n) && val < MAX_DOC
    ensures Valid(r) && r.store.Dense? && Docs(r) == Docs(n) + {val} && Stretched(n, val, r)
  {
    hide SetBit, Ids, At, Copied, Clear, Elements, NoDup, Between;
    var high := (val / OP_LEN + 1) * OP_LEN * 2 - 1;
    AlignedTwice(val);
    var width := high - n.minAligned + 1;
    var bitmap := Create(width);
    ghost var clear := bitmap[..];
    WordsOf(n);
    CopyWords(bitmap, 0, n.store.bits, 0, Width(n) / OP_LEN);
    CopiedIds(clear, bitmap[..], n.store.bits, 0, 0, WORD * (Width(n) / OP_LEN), n.minAligned, width, n.minAligned);
    BetweenAll(n.store.bits, n.minAligned, Width(n));
    ghost var moved := bitmap[..];
    Set(bitmap, val - n.minAligned);
    r := Node(n.size + 1, n.min, val, n.minAligned, high, Dense(bitmap[..]));
    SetKeeps(n, moved, r, val);
  }

  lemma BetweenAll(b: Bits, lo: nat, n: nat)
    ensures Between(Ids(b, lo, n), lo, lo + n) == Ids(b, lo, n)
  {
  }

  // ---- List form ----

  /** The ids of a longer prefix of a bitmap. */
  lemma NextBit(b: Bits, lo: nat, i: nat)
    requires i / 8 < |b|
    ensures Ids(b, lo, i + 1) == if Test(b, i) then Ids(b, lo, i) + {lo + i} else Ids(b, lo, i)
  {
    hide On;
    assert At(b, lo, lo + i) <==> Test(b, i);
  }

  /** A list with val stored behind its first n.size slots. */
  lemma AppendKeeps(n: Node, data: seq<nat>, r: Node, val: nat)
    requires Valid(n) && n.store.Sparse? && val !in Docs(n)
    requires n.size < |data| && data[..n.size] == n.store.data[..n.size] && data[n.size] == val
    requires r.size == n.size + 1 && r.store == Sparse(data) && Ranged(r)
    requires r.min <= val <= r.max && (n.size > 0 ==> r.min <= n.min && n.max <= r.max)
    ensures Valid(r) && Docs(r) == Docs(n) + {val}
  {
    hide Ids, At, NoDup;
    var s := Docs(n);
    assert data[..r.size] == data[..n.size] + [val];
    assert val !in data[..n.size];
    Appended(data[..n.size], val);
    hide Elements;
    OneMore(s, val);
    assert forall d: nat :: d in s ==> r.min <= d <= r.max;
    Assemble(r, s + {val});
  }

  method AddSparse(n: Node, val: nat) returns (r: Node)
    requires Valid(n) && n.store.Sparse? && val !in Docs(n) && val < TOP
    ensures Valid(r) && r.store.Sparse? && Docs(r) == Docs(n) + {val} && Ranged(r) && Stretched(n, val, r)
    ensures r.minAligned == if val < n.minAligned then Low(val) else n.minAligned
    ensures var have := |n.store.data|;
            |r.store.data| == if have == 0 then 1 else if n.size >= have then 2 * have else have
  {
    hide Ids, At, Elements, NoDup;
    Aligned(val);
    var data := n.store.data;
    if |data| == 0 {
      data := [0];
    } else if n.size >= |data| {
      data := CopyOf(data, n.size, 2 * |data|);
    }
    data := data[n.size := val];
    r := Node(n.size + 1,
              if val < n.min then val else n.min,
              if val > n.max then val else n.max,
              if val < n.minAligned then Low(val) else n.minAligned,
              if val > n.maxAligned then High(val) else n.maxAligned,
              Sparse(data));
    AppendKeeps(n, data, r, val);
  }

  method CopyOf(data: seq<nat>, size: nat, capacity: nat) returns (r: seq<nat>)
    requires size <= |data| && size <= capacity
    ensures |r| == capacity && r[..size] == data[..size]
  {
    var copy := new nat[capacity](_ => 0);
    for i := 0 to size
      invariant copy[..i] == data[..i]
    {
      copy[i] := data[i];
    }
    r := copy[..];
  }

  /** Every set bit in order; the list is as long as size_ says, so the scan never stops early. */
  method ConvertToSparse(n: Node) returns (r: Node)
    requires Valid(n) && n.store.Dense?
    ensures Valid(r) && r.store.Sparse? && Docs(r) == Docs(n) && r == n.(store := r.store)
  {
    hide Elements, NoDup, Ids, Test;
    var bits, lo := n.store.bits, n.minAligned;
    var data: seq<nat> := seq(n.size, _ => 0);
    var idx: nat := 0;
    ghost var docs := Docs(n);
    assert Ids(bits, lo, 0) == {} && data[..0] == [] by { NoBits(bits, lo); }
    assert NoDup(data[..0]) && Elements(data[..0]) == {} by { NoElements(); }
    for i := 0 to Width(n)
      invariant |data| == n.size && idx <= n.size
      invariant NoDup(data[..idx]) && Elements(data[..idx]) == Ids(bits, lo, i)
    {
      NextBit(bits, lo, i);
      if Test(bits, i) {
        FoundBit(bits, lo, i, Width(n), data[..idx]);
        assert idx < n.size;
        data := data[idx := i + lo];
        idx := idx + 1;
        assert data[..idx] == data[..idx - 1] + [lo + i];
      }
    }
    NoDupSize(data[..idx]);
    assert idx == n.size;
    r := n.(store := Sparse(data));
  }

  lemma NoElements()
    ensures NoDup([]) && Elements([]) == {}
  {
  }

  lemma NoBits(b: Bits, lo: nat)
    ensures Ids(b, lo, 0) == {}
  {
  }

  /** A bit found after the ids listed so far is a new one. */
  lemma FoundBit(b: Bits, lo: nat, i: nat, n: nat, listed: seq<nat>)
    requires i < n <= 8 * |b| && Test(b, i) && NoDup(listed) && Elements(listed) == Ids(b, lo, i)
    ensures |listed| < |Ids(b, lo, n)|
    ensures NoDup(listed + [lo + i]) && Elements(listed + [lo + i]) == Elements(listed) + {lo + i}
  {
    hide Test;
    NoDupSize(listed);
    var s, t := Ids(b, lo, i), Ids(b, lo, n);
    assert At(b, lo, lo + i);
    assert lo + i !in s && s + {lo + i} <= t;
    Smaller(s + {lo + i}, t);
    OneMore(s, lo + i);
    Appended(listed, lo + i);
  }

  lemma OneMoreElement(s: seq<nat>, i: nat, n: nat)
    requires i < n <= |s|
    ensures s[i] in Elements(s[..n]) && Elements(s[..i + 1]) == Elements(s[..i]) + {s[i]}
  {
    assert s[i] in s[..n];
    assert s[..i + 1] == s[..i] + [s[i]];
  }

  /** Every listed id set in a new bitmap; none lies outside the bounds. */
  method ConvertToDense(n: Node) returns (r: Node)
    requires Valid(n) && n.store.Sparse? && Ranged(n)
    ensures Valid(r) && r.store.Dense? && Docs(r) == Docs(n) && r == n.(store := r.store)
  {
    hide NoDup, Ids, Clear, SetBit, Elements, At;
    var data, lo, width := n.store.data, n.minAligned, Width(n);
    var bitmap := Create(width);
    ClearNone(bitmap[..], lo, width);
    assert data[..0] == [];
    NoElements();
    for i := 0 to n.size
      invariant bitmap.Length == ByteCount(width)
      invariant Ids(bitmap[..], lo, width) == Elements(data[..i])
    {
      var val := data[i];
      OneMoreElement(data, i, n.size);
      Mark(bitmap, lo, width, val);
    }
    r := n.(store := Dense(bitmap[..]));
    Assemble(r, Docs(n));
  }

  // ---- Adding and deleting ----

  /** The form an id is added in: wide bitmaps with few ids become lists, wide lists with
      many become bitmaps. */
  predicate AsBitmap(n: Node) {
    var offset := n.max - n.min;
    if n.store.Dense? then !(offset > 100000 && n.size as real / offset as real < 0.08)
    else offset > 100000 && n.size as real / offset as real > 0.1
  }

  /** Only the spare room above a bitmap takes ids below 2^30. */
  predicate Takes(n: Node, val: nat) {
    val < TOP && (AsBitmap(n) && n.size > 0 && val > n.maxAligned ==> val < MAX_DOC)
  }

  /** What is not taken: an id with no room above its word, or one to which a bitmap with ids would
      grow by doubling its upper bound beyond an int. */
  lemma TakesExactly(n: Node, val: nat)
    ensures !Takes(n, val) <==>
            || (val / OP_LEN + 1) * OP_LEN > MAX_INT
            || (AsBitmap(n) && n.size > 0 && val > n.maxAligned && (val / OP_LEN + 1) * OP_LEN * 2 - 1 > MAX_INT)
  {
    Aligned(val);
    AlignedTwice(val);
  }

  /** A bitmap is only ever made over a wide range, and bounds never come closer. */
  ghost predicate Wide(n: Node) {
    n.store.Dense? ==> n.max - n.min > 100000
  }

  method Add(n: Node, val: nat) returns (r: Node)
    requires Valid(n) && val !in Docs(n) && Takes(n, val)
    ensures Valid(r) && Docs(r) == Docs(n) + {val} && Ranged(r) && (r.store.Dense? <==> AsBitmap(n))
    ensures !(n.store.Dense? && AsBitmap(n) && n.size == 0) ==> Stretched(n, val, r)
    ensures Wide(n) ==> Wide(r) && Stretched(n, val, r)
    ensures !AsBitmap(n) ==> r.minAligned == if val < n.minAligned then Low(val) else n.minAligned
  {
    hide Docs;
    var offset := n.max - n.min;
    if n.store.Dense? {
      if offset > 100000 {
        if n.size as real / offset as real < 0.08 {
          r := ConvertToSparse(n);
          r := AddSparse(r, val);
          return;
        }
      }
      r := AddDense(n, val);
    } else {
      if offset > 100000 {
        if n.size as real / offset as real > 0.1 {
          r := ConvertToDense(n);
          r := AddDense(r, val);
          return;
        }
      }
      r := AddSparse(n, val);
    }
  }

  method DeleteDense(n: Node, val: nat) returns (r: Node)
    requires Valid(n) && n.store.Dense? && val in Docs(n)
    ensures Valid(r) && Docs(r) == Docs(n) - {val} && Ranged(r)
    ensures r == n.(size := r.size, store := r.store) && r.store.Dense?
  {
    hide Elements, NoDup, ClearBit, At;
    var s := Docs(n);
    ClearIds(n.store.bits, val - n.minAligned, n.minAligned, Width(n));
    OneLess(s, val);
    r := n.(size := n.size - 1, store := Dense(ClearBit(n.store.bits, val - n.minAligned)));
    assert Docs(r) == s - {val};
  }

  lemma Removed(s: seq<nat>, i: nat)
    requires NoDup(s) && i < |s|
    ensures NoDup(s[..i] + s[i + 1..]) && Elements(s[..i] + s[i + 1..]) == Elements(s) - {s[i]}
  {
    var t := s[..i] + s[i + 1..];
    forall x | x in s && x != s[i] ensures x in t {
      var k :| 0 <= k < |s| && s[k] == x;
      if k < i {
        assert t[k] == x;
      } else {
        assert t[k - 1] == x;
      }
    }
  }

  method DeleteSparse(n: Node, val: nat) returns (r: Node)
    requires Valid(n) && n.store.Sparse? && val in Docs(n)
    ensures Valid(r) && Docs(r) == Docs(n) - {val} && Ranged(r)
    ensures r == n.(size := r.size, store := r.store) && r.store.Sparse?
  {
    hide Ids, At;
    var data := n.store.data;
    var i := 0;
    while i < n.size && data[i] != val
      invariant i <= n.size && val !in data[..i]
    {
      i := i + 1;
    }
    assert val in data[..n.size];
    data := ShiftDown(data, i, n.size);
    r := n.(size := n.size - 1, store := Sparse(data));
    RemoveKeeps(n, i, r, val);
  }

  lemma RemoveKeeps(n: Node, i: nat, r: Node, val: nat)
    requires Valid(n) && n.store.Sparse? && i < n.size && n.store.data[i] == val
    requires r.store.Sparse? && |r.store.data| == |n.store.data|
    requires r == n.(size := n.size - 1, store := r.store)
    requires r.store.data[..n.size - 1] == n.store.data[..i] + n.store.data[i + 1..n.size]
    ensures Valid(r) && Docs(r) == Docs(n) - {val}
  {
    hide Elements, NoDup;
    var live := n.store.data[..n.size];
    assert r.store.data[..r.size] == live[..i] + live[i + 1..];
    Removed(live, i);
    ElementIn(live, i);
    OneLess(Elements(live), val);
    Assemble(r, Elements(live) - {val});
  }

  lemma ElementIn(s: seq<nat>, i: nat)
    requires i < |s|
    ensures s[i] in Elements(s)
  {
  }

  /** Slot i is overwritten by closing the gap up to size. */
  method ShiftDown(data: seq<nat>, i: nat, size: nat) returns (r: seq<nat>)
    requires i < size <= |data|
    ensures |r| == |data| && r[..size - 1] == data[..i] + data[i + 1..size]
  {
    r := data;
    for j := i to size - 1
      invariant Shifted(data, r, i, j)
    {
      ShiftStep(data, r, i, j);
      r := r[j := r[j + 1]];
    }
    ShiftedAll(data, r, i, size - 1);
  }

  /** The slots from i up to j have moved down by one. */
  ghost predicate Shifted(data: seq<nat>, r: seq<nat>, i: nat, j: nat) {
    && i <= j < |data| == |r|
    && r[..i] == data[..i] && r[i..j] == data[i + 1..j + 1] && r[j..] == data[j..]
  }

  lemma ShiftStep(data: seq<nat>, r: seq<nat>, i: nat, j: nat)
    requires Shifted(data, r, i, j) && j + 1 < |data|
    ensures Shifted(data, r[j := r[j + 1]], i, j + 1)
  {
    var s := r[j := r[j + 1]];
    assert r[j + 1] == r[j..][1] && data[j + 1] == data[j..][1];
    assert s[..i] == r[..i];
    assert s[i..j + 1] == r[i..j] + [data[j + 1]];
    assert data[i + 1..j + 2] == data[i + 1..j + 1] + [data[j + 1]];
    assert s[j + 1..] == r[j..][1..] && data[j + 1..] == data[j..][1..];
  }

  lemma ShiftedAll(data: seq<nat>, r: seq<nat>, i: nat, j: nat)
    requires Shifted(data, r, i, j)
    ensures |r| == |data| && r[..j] == data[..i] + data[i + 1..j + 1]
  {
    assert r[..j] == r[..i] + r[i..j];
  }

  method Delete(n: Node, val: nat) returns (r: Node)
    requires Valid(n) && val in Docs(n)
    ensures Valid(r) && Docs(r) == Docs(n) - {val} && Ranged(r)
    ensures r == n.(size := r.size, store := r.store) && (r.store.Dense? <==> n.store.Dense?)
  {
    if n.store.Dense? {
      r := DeleteDense(n, val);
    } else {
      r := DeleteSparse(n, val);
    }
  }

  // ---- Runs ----

  datatype Op = Insert(id: nat) | Remove(id: nat)

  ghost function After(s: set<nat>, op: Op): set<nat> {
    match op
    case Insert(id) => s + {id}
    case Remove(id) => s - {id}
  }

  /** Absent ids are added and present ones deleted. */
  ghost predicate Admits(s: set<nat>, ops: seq<Op>)
    decreases |ops|
  {
    ops == [] || (
      && (match ops[0]
          case Insert(id) => id !in s && id < TOP
          case Remove(id) => id in s)
      && Admits(After(s, ops[0]), ops[1..]))
  }

  ghost function AfterAll(s: set<nat>, ops: seq<Op>): set<nat>
    decreases |ops|
  {
    if ops == [] then s else AfterAll(After(s, ops[0]), ops[1..])
  }

  /** Through every change of form and every growth the node is the set, with its size. The run
      ends early, with `ok` false, only when a bitmap would have to grow to an id from 2^30 on. */
  method Run(ops: seq<Op>) returns (ok: bool, n: Node)
    requires Admits({}, ops)
    ensures Valid(n) && Wide(n)
    ensures ok ==> Docs(n) == AfterAll({}, ops) && n.size == |AfterAll({}, ops)|
    ensures !ok ==> exists i :: 0 <= i < |ops| && ops[i].Insert? && ops[i].id >= MAX_DOC && !Takes(n, ops[i].id)
  {
    n := EMPTY;
    var i := 0;
    assert ops[0..] == ops && Docs(n) == {};
    while i < |ops|
      invariant i <= |ops| && Valid(n) && Wide(n)
      invariant Admits(Docs(n), ops[i..]) && AfterAll(Docs(n), ops[i..]) == AfterAll({}, ops)
    {
      hide Shaped, Docs;
      assert ops[i..][0] == ops[i] && ops[i..][1..] == ops[i + 1..];
      match ops[i] {
        case Insert(id) =>
          if !Takes(n, id) {
            return false, n;
          }
          n := Add(n, id);
        case Remove(id) => n := Delete(n, id);
      }
      i := i + 1;
    }
    ok := true;
  }

  // ---- An emptied bitmap ----

  ghost function Upto(k: nat): (r: set<nat>)
    ensures forall x: nat :: x in r <==> x < k
  {
    if k == 0 then {} else Upto(k - 1) + {k - 1}
  }

  lemma {:induction false} UptoSize(k: nat)
    ensures |Upto(k)| == k
  {
    if k > 0 {
      UptoSize(k - 1);
      OneMore(Upto(k - 1), k - 1);
    }
  }

  lemma UptoNext(n: Node, k: nat)
    requires Valid(n) && Docs(n) == Upto(k)
    ensures n.size == k && Upto(k) + {k} == Upto(k + 1) && Upto(k + 1) - {k} == Upto(k)
  {
    UptoSize(k);
  }

  lemma OneMoreSize(n: Node, s: set<nat>, x: nat)
    requires Valid(n) && Docs(n) == s + {x} && x !in s
    ensures n.size == |s| + 1
  {
    OneMore(s, x);
  }

  lemma EmptyNode()
    ensures Valid(EMPTY) && Docs(EMPTY) == Upto(0)
  {
  }

  lemma AtZero(n: Node)
    requires Ranged(n) && n.min == 0
    ensures n.minAligned == 0
  {
  }

  /** A bitmap: 20001 ids, one far behind them, and one more. */
  method MakeBitmap() returns (n: Node)
    ensures Valid(n) && Ranged(n) && n.store.Dense? && n.min == 0 && n.max == 150001
    ensures Docs(n) == Upto(20001) + {150000} + {150001}
  {
    hide Docs, Shaped, Ranged, Upto;
    n := EMPTY;
    EmptyNode();
    for i := 0 to 20001
      invariant Valid(n) && n.store.Sparse? && Docs(n) == Upto(i)
      invariant if i == 0 then n == EMPTY else n.min == 0 && n.max == i - 1
    {
      UptoNext(n, i);
      n := Add(n, i);
    }
    UptoNext(n, 20001);
    UptoSize(20001);
    n := Add(n, 150000);
    OneMoreSize(n, Upto(20001), 150000);
    n := Add(n, 150001);
  }

  /** A bitmap that lost its last id stays a bitmap, over its old bounds. */
  method EmptiedBitmap() returns (n: Node)
    ensures Valid(n) && Ranged(n) && n.store.Dense? && n.size == 0 && n.minAligned == 0
  {
    hide Docs, Shaped, Ranged, Upto;
    n := MakeBitmap();
    n := Delete(n, 150001);
    assert Docs(n) == Upto(20001) + {150000};
    n := Delete(n, 150000);
    var left: nat := 20001;
    assert Docs(n) == Upto(left);
    while left > 0
      invariant Valid(n) && Ranged(n) && n.store.Dense? && Docs(n) == Upto(left) && n.min == 0
    {
      left := left - 1;
      n := Delete(n, left);
      assert Docs(n) == Upto(left);
    }
    UptoNext(n, 0);
    AtZero(n);
  }
}
