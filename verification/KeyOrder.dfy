/** The keys of a numeric field: an n-byte two's-complement little-endian number is turned
    into bytes whose unsigned lexicographic order is the order of the numbers. */
module KeyOrder {
  import opened Arithmetic
  import opened ByteStrings

  function Pow(n: nat): (r: nat)
    ensures r > 0
  {
    if n == 0 then 1 else 256 * Pow(n - 1)
  }

  /** A digit at place n of a number in base 256. */
  function Digit(x: nat, n: nat): nat {
    x * Pow(n)
  }

  lemma DigitOrder(x: nat, y: nat, n: nat)
    requires x < y
    ensures Digit(x, n) + Pow(n) <= Digit(y, n)
  {
    hide Pow;
    Scale(x + 1, y, Pow(n));
  }

  lemma DigitSum(x: nat, y: nat, n: nat)
    ensures Digit(x + y, n) == Digit(x, n) + Digit(y, n)
  {
    hide Pow;
  }

  lemma DigitTop(n: nat)
    ensures Pow(n + 1) == Digit(256, n) && Digit(256, n) == Digit(128, n) + Digit(128, n)
  {
  }

  /** The unsigned number, least significant byte first. */
  function Unsigned(b: Bytes): nat {
    if b == [] then 0 else Unsigned(b[..|b| - 1]) + Digit(b[|b| - 1] as nat, |b| - 1)
  }

  function Signed(b: Bytes): int
    requires b != []
  {
    if b[|b| - 1] < 128 then Unsigned(b) else Unsigned(b) - Pow(|b|)
  }

  /** The unsigned number, most significant byte first. */
  function BigEndian(b: Bytes): nat {
    if b == [] then 0 else Digit(b[0] as nat, |b| - 1) + BigEndian(b[1..])
  }

  /** A 4-byte number in two's complement. */
  lemma FourSigned(b: Bytes)
    requires |b| == 4
    ensures Signed(b) == b[0] as int + 256 * b[1] as int + 65536 * b[2] as int + 16777216 * b[3] as int
                         - (if b[3] >= 128 then 0x1_0000_0000 else 0)
  {
    var a, c, d := b[..3], b[..2], b[..1];
    assert a[..2] == c && c[..1] == d && d[..0] == [] && a[2] == b[2] && c[1] == b[1] && d[0] == b[0];
    assert Pow(0) == 1 && Pow(1) == 256 && Pow(2) == 65536 && Pow(3) == 16777216 && Pow(4) == 0x1_0000_0000;
    assert Unsigned(d) == b[0] as int && Unsigned(c) == Unsigned(d) + b[1] as int * 256;
    assert Unsigned(a) == Unsigned(c) + b[2] as int * 65536 && Unsigned(b) == Unsigned(a) + b[3] as int * 16777216;
  }

  /** memcmp order; a proper prefix comes first. */
  predicate Less(a: Bytes, b: Bytes) {
    if b == [] then false
    else if a == [] then true
    else if a[0] != b[0] then a[0] < b[0]
    else Less(a[1..], b[1..])
  }

  predicate AtMost(a: Bytes, b: Bytes) {
    !Less(b, a)
  }

  function Flip(x: byte): byte {
    ((x as nat + 128) % 256) as byte
  }

  function Reverse(b: Bytes): (r: Bytes)
    ensures |r| == |b| && forall i :: 0 <= i < |r| ==> r[i] == b[|b| - 1 - i]
  {
    if b == [] then [] else [b[|b| - 1]] + Reverse(b[..|b| - 1])
  }

  /** The key of a number. */
  function Encode(b: Bytes): (r: Bytes)
    requires b != []
    ensures |r| == |b|
  {
    [Flip(b[|b| - 1])] + Reverse(b[..|b| - 1])
  }

  method ReverseEndian(b: Bytes) returns (key: Bytes)
    requires b != []
    ensures key == Encode(b)
  {
    var len := |b|;
    var out := new byte[len];
    for i := 0 to len
      invariant forall j :: 0 <= j < i ==> out[j] == b[len - j - 1]
    {
      out[i] := b[len - i - 1];
    }
    out[0] := Flip(out[0]);
    key := out[..];
  }

  lemma {:induction false} BigEndianBound(b: Bytes)
    ensures BigEndian(b) < Pow(|b|)
    decreases |b|
  {
    if b != [] {
      hide Pow, Digit;
      BigEndianBound(b[1..]);
      DigitOrder(b[0] as nat, 256, |b| - 1);
      DigitTop(|b| - 1);
    }
  }

  /** Lexicographic order is the order of the big-endian numbers. */
  lemma {:induction false} LessIsBigEndian(a: Bytes, b: Bytes)
    requires |a| == |b|
    ensures Less(a, b) <==> BigEndian(a) < BigEndian(b)
    ensures a == b <==> BigEndian(a) == BigEndian(b)
    decreases |a|
  {
    if a != [] {
      LessIsBigEndian(a[1..], b[1..]);
      BigEndianBound(a[1..]);
      BigEndianBound(b[1..]);
      hide Pow, Digit;
      if a[0] < b[0] {
        DigitOrder(a[0] as nat, b[0] as nat, |a| - 1);
      } else if b[0] < a[0] {
        DigitOrder(b[0] as nat, a[0] as nat, |a| - 1);
      }
      assert a == [a[0]] + a[1..] && b == [b[0]] + b[1..];
    }
  }

  lemma {:induction false} ReverseValue(b: Bytes)
    ensures BigEndian(Reverse(b)) == Unsigned(b)
    decreases |b|
  {
    if b != [] {
      var c := b[..|b| - 1];
      ReverseValue(c);
      assert Reverse(b)[1..] == Reverse(c);
    }
  }

  /** The key, read as a number, is the value moved up by half the range. */
  lemma EncodeValue(b: Bytes)
    requires b != []
    ensures BigEndian(Encode(b)) == Signed(b) + Digit(128, |b| - 1)
  {
    hide Pow, Digit;
    var c, top, n := b[..|b| - 1], b[|b| - 1] as nat, |b| - 1;
    ReverseValue(c);
    assert Encode(b)[1..] == Reverse(c);
    DigitTop(n);
    if top < 128 {
      DigitSum(top, 128, n);
    } else {
      DigitSum(top - 128, 128, n);
    }
  }

  /** The encoding embeds the order of the numbers, and no two numbers share a key. */
  lemma OrderEmbedding(x: Bytes, y: Bytes)
    requires |x| == |y| && x != []
    ensures Less(Encode(x), Encode(y)) <==> Signed(x) < Signed(y)
    ensures Encode(x) == Encode(y) <==> Signed(x) == Signed(y)
    ensures Encode(x) == Encode(y) <==> x == y
  {
    EncodeValue(x);
    EncodeValue(y);
    LessIsBigEndian(Encode(x), Encode(y));
    if Encode(x) == Encode(y) {
      EncodeInjective(x, y);
    }
  }

  lemma EncodeInjective(x: Bytes, y: Bytes)
    requires |x| == |y| && x != [] && Encode(x) == Encode(y)
    ensures x == y
  {
    var n := |x|;
    forall i | 0 <= i < n ensures x[i] == y[i] {
      assert Encode(x)[n - 1 - i] == Encode(y)[n - 1 - i];
    }
  }

  lemma {:induction false} LessTrans(a: Bytes, b: Bytes, c: Bytes)
    requires Less(a, b) && Less(b, c)
    ensures Less(a, c)
    decreases |a|
  {
    if a != [] && b != [] && c != [] && a[0] == b[0] == c[0] {
      LessTrans(a[1..], b[1..], c[1..]);
    }
  }

  lemma {:induction false} LessTotal(a: Bytes, b: Bytes)
    ensures Less(a, b) || a == b || Less(b, a)
    ensures !(Less(a, b) && Less(b, a))
    decreases |a|
  {
    if a != [] && b != [] {
      LessTotal(a[1..], b[1..]);
      assert a == [a[0]] + a[1..] && b == [b[0]] + b[1..];
    }
  }
}
