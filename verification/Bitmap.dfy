/** Bitmaps of bytes, and the word-wise loops over them. A word is BM_OPERATE_TYPE, 8 bytes. */
module Bitmap {
  const WORD: nat := 8 // bytes
  const OP_LEN: nat := 64 // bits

  type Bits = seq<bv8>

  function Mask(k: nat): bv8
    requires k < 8
  {
    if k == 0 then 0x01 else if k == 1 then 0x02 else if k == 2 then 0x04 else if k == 3 then 0x08
    else if k == 4 then 0x10 else if k == 5 then 0x20 else if k == 6 then 0x40 else 0x80
  }

  predicate On(x: bv8, k: nat)
    requires k < 8
  {
    x & Mask(k) != 0
  }

  /** Bit k of a byte, counted from the lowest. */
  lemma OnIs(x: bv8, k: nat)
    requires k < 8
    ensures On(x, k) <==> (x >> k) & 1 == 1
  {
    if k == 0 {
    } else if k == 1 {
    } else if k == 2 {
    } else if k == 3 {
    } else if k == 4 {
    } else if k == 5 {
    } else if k == 6 {
    } else {
    }
  }

  lemma OnOr(x: bv8, y: bv8, k: nat)
    requires k < 8
    ensures On(x | y, k) <==> On(x, k) || On(y, k)
  {
    var m := Mask(k);
    assert (x | y) & m == (x & m) | (y & m);
  }

  lemma OnAnd(x: bv8, y: bv8, k: nat)
    requires k < 8
    ensures On(x & y, k) <==> On(x, k) && On(y, k)
  {
  }

  lemma OnMask(k: nat, j: nat)
    requires k < 8 && j < 8
    ensures On(Mask(j), k) <==> k == j
    ensures On(!Mask(j), k) <==> k != j
    ensures !On(0, k)
  {
  }

  /** bitmap::test. */
  predicate Test(b: Bits, id: nat)
    requires id / 8 < |b|
  {
    On(b[id / 8], id % 8)
  }

  /** bitmap::create. */
  function ByteCount(size: nat): (r: nat)
    ensures size < 8 * r
  {
    size / 8 + 1
  }

  function SetBit(b: Bits, id: nat): Bits
    requires id / 8 < |b|
  {
    b[id / 8 := b[id / 8] | Mask(id % 8)]
  }

  function ClearBit(b: Bits, id: nat): Bits
    requires id / 8 < |b|
  {
    b[id / 8 := b[id / 8] & !Mask(id % 8)]
  }

  lemma SetTest(b: Bits, id: nat, j: nat)
    requires id / 8 < |b| && j / 8 < |b|
    ensures Test(SetBit(b, id), j) <==> j == id || Test(b, j)
  {
    hide Mask, On;
    if j / 8 == id / 8 {
      OnOr(b[id / 8], Mask(id % 8), j % 8);
      OnMask(j % 8, id % 8);
    }
  }

  lemma ClearTest(b: Bits, id: nat, j: nat)
    requires id / 8 < |b| && j / 8 < |b|
    ensures Test(ClearBit(b, id), j) <==> j != id && Test(b, j)
  {
    hide Mask, On;
    if j / 8 == id / 8 {
      OnAnd(b[id / 8], !Mask(id % 8), j % 8);
      OnMask(j % 8, id % 8);
    }
  }

  // ---- The set a bitmap stands for ----

  /** Bit d - lo of the bitmap is set. */
  predicate At(b: Bits, lo: nat, d: nat) {
    lo <= d && (d - lo) / 8 < |b| && Test(b, d - lo)
  }

  /** The ids lo + i of the n bits i that are set. */
  ghost function Ids(b: Bits, lo: nat, n: nat): (r: set<nat>)
    ensures forall d: nat :: d in r <==> d < lo + n && At(b, lo, d)
  {
    set d: nat | d < lo + n && At(b, lo, d)
  }

  lemma SetIds(b: Bits, id: nat, lo: nat, n: nat)
    requires id < n <= 8 * |b|
    ensures |SetBit(b, id)| == |b| && Ids(SetBit(b, id), lo, n) == Ids(b, lo, n) + {lo + id}
  {
    hide Test;
    var c := SetBit(b, id);
    forall d: nat | d < lo + n ensures At(c, lo, d) <==> d == lo + id || At(b, lo, d) {
      if lo <= d {
        SetTest(b, id, d - lo);
      }
    }
  }

  lemma ClearIds(b: Bits, id: nat, lo: nat, n: nat)
    requires id < n <= 8 * |b|
    ensures |ClearBit(b, id)| == |b| && Ids(ClearBit(b, id), lo, n) == Ids(b, lo, n) - {lo + id}
  {
    hide Test;
    var c := ClearBit(b, id);
    forall d: nat | d < lo + n ensures At(c, lo, d) <==> d != lo + id && At(b, lo, d) {
      if lo <= d {
        ClearTest(b, id, d - lo);
      }
    }
  }

  ghost predicate Clear(b: Bits) {
    forall i :: 0 <= i < |b| ==> b[i] == 0
  }

  lemma ClearNone(b: Bits, lo: nat, n: nat)
    requires Clear(b)
    ensures Ids(b, lo, n) == {}
  {
    hide On;
    forall d: nat ensures !At(b, lo, d) {
      if lo <= d {
        OnMask((d - lo) % 8, 0);
      }
    }
  }

  method Create(size: nat) returns (bitmap: array<bv8>)
    ensures fresh(bitmap) && bitmap.Length == ByteCount(size) && Clear(bitmap[..])
  {
    bitmap := new bv8[ByteCount(size)];
    for i := 0 to bitmap.Length
      invariant forall j :: 0 <= j < i ==> bitmap[j] == 0
    {
      bitmap[i] := 0;
    }
  }

  method Set(bitmap: array<bv8>, id: nat)
    requires id / 8 < bitmap.Length
    modifies bitmap
    ensures bitmap[..] == SetBit(old(bitmap[..]), id)
  {
    bitmap[id / 8] := bitmap[id / 8] | Mask(id % 8);
  }

  /** bitmap::set, seen as adding an id to the set the bitmap stands for. */
  method Mark(bitmap: array<bv8>, lo: nat, n: nat, id: nat)
    requires lo <= id < lo + n <= lo + 8 * bitmap.Length
    modifies bitmap
    ensures Ids(bitmap[..], lo, n) == old(Ids(bitmap[..], lo, n)) + {id}
  {
    hide Ids, SetBit;
    SetIds(bitmap[..], id - lo, lo, n);
    Set(bitmap, id - lo);
  }

  lemma AddOne(a: set<nat>, b: set<nat>, x: nat)
    ensures (a + b) + {x} == a + (b + {x})
  {
  }

  // ---- Words ----

  /** b is a with the n words from off on combined with the words of src. */
  ghost predicate Copied(a: Bits, b: Bits, src: Bits, off: nat, from: nat, n: nat) {
    && |b| == |a| && off + n <= |a| && from + n <= |src|
    && (forall i :: 0 <= i < |a| && !(off <= i < off + n) ==> b[i] == a[i])
    && (forall i :: off <= i < off + n ==> b[i] == src[i - off + from])
  }

  ghost predicate Ored(a: Bits, b: Bits, src: Bits, off: nat, n: nat) {
    && |b| == |a| && off + n <= |a| && n <= |src|
    && (forall i :: 0 <= i < |a| && !(off <= i < off + n) ==> b[i] == a[i])
    && (forall i :: off <= i < off + n ==> b[i] == a[i] | src[i - off])
  }

  ghost predicate Anded(a: Bits, b: Bits, src: Bits, off: nat, from: nat, n: nat) {
    && |b| == |a| && off + n <= |a| && from + n <= |src|
    && (forall i :: 0 <= i < |a| && !(off <= i < off + n) ==> b[i] == a[i])
    && (forall i :: off <= i < off + n ==> b[i] == a[i] & src[i - off + from])
  }

  /** Words off.. of dst become words from.. of src. */
  method CopyWords(dst: array<bv8>, off: nat, src: Bits, from: nat, n: nat)
    requires WORD * (off + n) <= dst.Length && WORD * (from + n) <= |src|
    modifies dst
    ensures Copied(old(dst[..]), dst[..], src, WORD * off, WORD * from, WORD * n)
  {
    for w := 0 to n
      invariant Copied(old(dst[..]), dst[..], src, WORD * off, WORD * from, WORD * w)
    {
      for k := 0 to WORD
        invariant Copied(old(dst[..]), dst[..], src, WORD * off, WORD * from, WORD * w + k)
      {
        dst[WORD * (off + w) + k] := src[WORD * (from + w) + k];
      }
    }
  }

  method OrWords(dst: array<bv8>, off: nat, src: Bits, n: nat)
    requires WORD * (off + n) <= dst.Length && WORD * n <= |src|
    modifies dst
    ensures Ored(old(dst[..]), dst[..], src, WORD * off, WORD * n)
  {
    for w := 0 to n
      invariant Ored(old(dst[..]), dst[..], src, WORD * off, WORD * w)
    {
      for k := 0 to WORD
        invariant Ored(old(dst[..]), dst[..], src, WORD * off, WORD * w + k)
      {
        var i := WORD * (off + w) + k;
        dst[i] := dst[i] | src[WORD * w + k];
      }
    }
  }

  method AndWords(dst: array<bv8>, off: nat, src: Bits, from: nat, n: nat)
    requires WORD * (off + n) <= dst.Length && WORD * (from + n) <= |src|
    modifies dst
    ensures Anded(old(dst[..]), dst[..], src, WORD * off, WORD * from, WORD * n)
  {
    for w := 0 to n
      invariant Anded(old(dst[..]), dst[..], src, WORD * off, WORD * from, WORD * w)
    {
      for k := 0 to WORD
        invariant Anded(old(dst[..]), dst[..], src, WORD * off, WORD * from, WORD * w + k)
      {
        var i := WORD * (off + w) + k;
        dst[i] := dst[i] & src[WORD * (from + w) + k];
      }
    }
  }

  // ---- What the word loops do to the sets ----

  ghost function Between(s: set<nat>, lo: nat, hi: nat): (r: set<nat>)
    ensures forall d :: d in r <==> d in s && lo <= d < hi
  {
    set d | d in s && lo <= d < hi
  }

  /** Bytes off.. of a bitmap from lo are bytes from.. of a bitmap from srcLo. */
  lemma ByteOf(d: nat, lo: nat, srcLo: nat, off: nat, from: nat)
    requires lo <= d && lo + 8 * off == srcLo + 8 * from
    ensures off <= (d - lo) / 8 <==> lo + 8 * off <= d
    ensures lo + 8 * off <= d ==>
              srcLo <= d && (d - lo) / 8 - off + from == (d - srcLo) / 8 && (d - lo) % 8 == (d - srcLo) % 8
  {
  }

  /** Moving bytes moves the ids with them. */
  lemma CopiedIds(a: Bits, b: Bits, src: Bits, off: nat, from: nat, n: nat, lo: nat, m: nat, srcLo: nat)
    requires Copied(a, b, src, off, from, n) && Clear(a) && 8 * (off + n) <= m
    requires lo + 8 * off == srcLo + 8 * from
    ensures Ids(b, lo, m) == Between(Ids(src, srcLo, 8 * (from + n)), srcLo + 8 * from, srcLo + 8 * (from + n))
  {
    hide On;
    forall d: nat | d < lo + m
      ensures At(b, lo, d) <==> srcLo + 8 * from <= d < srcLo + 8 * (from + n) && At(src, srcLo, d)
    {
      if lo <= d && (d - lo) / 8 < |b| {
        OnMask((d - lo) % 8, 0);
        ByteOf(d, lo, srcLo, off, from);
      }
    }
  }

  lemma OredIds(a: Bits, b: Bits, src: Bits, off: nat, n: nat, lo: nat, m: nat)
    requires Ored(a, b, src, off, n) && 8 * (off + n) <= m
    ensures Ids(b, lo, m) == Ids(a, lo, m) + Ids(src, lo + 8 * off, 8 * n)
  {
    hide On;
    var srcLo := lo + 8 * off;
    forall d: nat | d < lo + m
      ensures At(b, lo, d) <==> At(a, lo, d) || (d < srcLo + 8 * n && At(src, srcLo, d))
    {
      if lo <= d && (d - lo) / 8 < |b| {
        ByteOf(d, lo, srcLo, off, 0);
        var i := (d - lo) / 8;
        if off <= i < off + n {
          OnOr(a[i], src[i - off], (d - lo) % 8);
        }
      }
    }
  }

  lemma AndedIds(a: Bits, b: Bits, src: Bits, from: nat, n: nat, lo: nat, srcLo: nat)
    requires Anded(a, b, src, 0, from, n) && lo == srcLo + 8 * from
    ensures Ids(b, lo, 8 * n) == Ids(a, lo, 8 * n) * Ids(src, srcLo, 8 * (from + n))
  {
    hide On;
    forall d: nat | d < lo + 8 * n
      ensures At(b, lo, d) <==> At(a, lo, d) && At(src, srcLo, d)
    {
      if lo <= d {
        ByteOf(d, lo, srcLo, 0, from);
        var i := (d - lo) / 8;
        OnAnd(a[i], src[i + from], (d - lo) % 8);
      }
    }
  }
}
