/** The byte format in which the inverted lists are dumped. */
module InvertedFormat {
  import opened ByteStrings
  import opened InvertedSpec

  function Pow256(k: nat): nat {
    if k == 0 then 1 else 256 * Pow256(k - 1)
  }

  /** A number in `k` bytes, least significant first. */
  function Encode(n: nat, k: nat): (r: Bytes)
    ensures |r| == k
  {
    if k == 0 then [] else [(n % 256) as byte] + Encode(n / 256, k - 1)
  }

  function Decode(s: Bytes): nat {
    if s == [] then 0 else s[0] as int + 256 * Decode(s[1..])
  }

  lemma {:induction false} DecodeEncode(n: nat, k: nat)
    requires n < Pow256(k)
    ensures Decode(Encode(n, k)) == n
  {
    if k > 0 {
      DecodeEncode(n / 256, k - 1);
      assert Encode(n, k)[1..] == Encode(n / 256, k - 1);
    }
  }

  lemma {:induction false} EncodeDecode(s: Bytes)
    ensures Encode(Decode(s), |s|) == s && Decode(s) < Pow256(|s|)
  {
    if s != [] {
      EncodeDecode(s[1..]);
      var n := Decode(s);
      assert n % 256 == s[0] as int && n / 256 == Decode(s[1..]);
      assert s == [s[0]] + s[1..];
    }
  }

  /** Numbers lie in the file as the sum of their bytes, the lowest first. */
  lemma FourBytes(s: Bytes)
    requires |s| == 4
    ensures Decode(s) == s[0] as int + 256 * s[1] as int + 65536 * s[2] as int + 16777216 * s[3] as int
  {
    var a, b, c := s[1..], s[2..], s[3..];
    assert a[1..] == b && b[1..] == c && c[1..] == [] && a[0] == s[1] && b[0] == s[2] && c[0] == s[3];
    assert Decode(c) == s[3] as int && Decode(b) == s[2] as int + 256 * Decode(c);
    assert Decode(a) == s[1] as int + 256 * Decode(b) && Decode(s) == s[0] as int + 256 * Decode(a);
  }

  lemma EightBytes(s: Bytes)
    requires |s| == 8
    ensures Decode(s) == Decode(s[..4]) + 0x1_0000_0000 * Decode(s[4..])
  {
    FourBytes(s[..4]);
    var a, b, c, d := s[1..], s[2..], s[3..], s[4..];
    assert a[1..] == b && b[1..] == c && c[1..] == d && a[0] == s[1] && b[0] == s[2] && c[0] == s[3];
    assert Decode(c) == s[3] as int + 256 * Decode(d) && Decode(b) == s[2] as int + 256 * Decode(c);
    assert Decode(a) == s[1] as int + 256 * Decode(b) && Decode(s) == s[0] as int + 256 * Decode(a);
  }

  lemma Pow8()
    ensures Pow256(8) == 0x1_0000_0000_0000_0000
  {
    assert Pow256(4) == 256 * 256 * 256 * 256;
  }

  /** Numbers in 8 bytes each. */
  function EncodeAll(s: seq<nat>): (r: Bytes)
    ensures |r| == 8 * |s|
  {
    if s == [] then [] else Encode(s[0], 8) + EncodeAll(s[1..])
  }

  function DecodeAll(s: Bytes, n: nat): (r: seq<nat>)
    requires |s| == 8 * n
    ensures |r| == n
  {
    if n == 0 then [] else [Decode(s[..8])] + DecodeAll(s[8..], n - 1)
  }

  lemma {:induction false} DecodeEncodeAll(s: seq<nat>)
    requires forall i :: 0 <= i < |s| ==> s[i] < 0x1_0000_0000_0000_0000
    ensures DecodeAll(EncodeAll(s), |s|) == s
  {
    if s != [] {
      Pow8();
      DecodeEncode(s[0], 8);
      assert EncodeAll(s)[..8] == Encode(s[0], 8) && EncodeAll(s)[8..] == EncodeAll(s[1..]);
      DecodeEncodeAll(s[1..]);
    }
  }

  lemma {:induction false} EncodeDecodeAll(s: Bytes, n: nat)
    requires |s| == 8 * n
    ensures EncodeAll(DecodeAll(s, n)) == s
    ensures forall i :: 0 <= i < n ==> DecodeAll(s, n)[i] < 0x1_0000_0000_0000_0000
  {
    if n > 0 {
      Pow8();
      EncodeDecode(s[..8]);
      EncodeDecodeAll(s[8..], n - 1);
      assert s == s[..8] + s[8..];
      assert DecodeAll(s, n)[1..] == DecodeAll(s[8..], n - 1);
    }
  }

  /** Codes of `width` bytes each, one after the other. */
  function Join(s: seq<Code>): Bytes {
    if s == [] then [] else s[0] + Join(s[1..])
  }

  /** `n` codes of `width` bytes. */
  function Total(width: nat, n: nat): nat {
    if n == 0 then 0 else width + Total(width, n - 1)
  }

  function Cut(s: Bytes, width: nat, n: nat): (r: seq<Code>)
    requires |s| == Total(width, n)
    ensures |r| == n
  {
    if n == 0 then [] else [s[..width]] + Cut(s[width..], width, n - 1)
  }

  lemma {:induction false} CutJoin(s: seq<Code>, width: nat)
    requires forall i :: 0 <= i < |s| ==> |s[i]| == width
    ensures |Join(s)| == Total(width, |s|) && Cut(Join(s), width, |s|) == s
  {
    if s != [] {
      CutJoin(s[1..], width);
      assert Join(s)[..width] == s[0] && Join(s)[width..] == Join(s[1..]);
    }
  }

  /** A flat string of `n` codes, cut into its codes. */
  function Chop(bytes: Bytes, width: nat, n: nat): (r: seq<Code>)
    requires n * width == |bytes|
    ensures |r| == n && forall i :: 0 <= i < n ==> |r[i]| == width
  {
    TotalTimes(width, n);
    assert forall i :: 0 <= i < n ==> |Cut(bytes, width, n)[i]| == width by {
      forall i | 0 <= i < n ensures |Cut(bytes, width, n)[i]| == width {
        CutWidths(bytes, width, n, i);
      }
    }
    Cut(bytes, width, n)
  }

  lemma {:induction false} CutWidths(s: Bytes, width: nat, n: nat, i: nat)
    requires |s| == Total(width, n) && i < n
    ensures |Cut(s, width, n)[i]| == width
  {
    if i > 0 {
      CutWidths(s[width..], width, n - 1, i - 1);
    }
  }

  lemma {:induction false} JoinCut(s: Bytes, width: nat, n: nat)
    requires |s| == Total(width, n)
    ensures Join(Cut(s, width, n)) == s
  {
    if n > 0 {
      JoinCut(s[width..], width, n - 1);
      var r := Cut(s, width, n);
      assert r[1..] == Cut(s[width..], width, n - 1);
      assert s == s[..width] + s[width..];
    }
  }

  lemma {:induction false} TotalTimes(width: nat, n: nat)
    ensures Total(width, n) == width * n
  {
    if n > 0 {
      TotalTimes(width, n - 1);
      assert width * n == width + width * (n - 1);
    }
  }
}
