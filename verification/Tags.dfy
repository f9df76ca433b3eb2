/** Splitting a tag value into its tags at the delimiter byte 1: the nonempty runs between
    delimiters, as utils::split takes them; the strtok_r loops take those before the first
    byte 0. */
module Tags {
  import opened ByteStrings

  const DELIM: byte := 1

  /** The first position from i on that holds (or does not hold) a delimiter. */
  function FirstOf(s: Bytes, i: nat): (r: nat)
    requires i <= |s|
    ensures i <= r <= |s| && (r < |s| ==> s[r] == DELIM)
    ensures forall j :: i <= j < r ==> s[j] != DELIM
    decreases |s| - i
  {
    if i == |s| || s[i] == DELIM then i else FirstOf(s, i + 1)
  }

  function FirstNotOf(s: Bytes, i: nat): (r: nat)
    requires i <= |s|
    ensures i <= r <= |s| && (r < |s| ==> s[r] != DELIM)
    ensures forall j :: i <= j < r ==> s[j] == DELIM
    decreases |s| - i
  {
    if i == |s| || s[i] != DELIM then i else FirstNotOf(s, i + 1)
  }

  ghost predicate IsTag(t: Bytes) {
    t != [] && DELIM !in t
  }

  /** The tags of s from position i on. */
  ghost function TagsFrom(s: Bytes, i: nat): (r: seq<Bytes>)
    requires i <= |s|
    decreases |s| - i
  {
    var begin := FirstNotOf(s, i);
    if begin == |s| then []
    else
      var end := FirstOf(s, begin);
      assert begin < end;
      [s[begin..end]] + TagsFrom(s, end)
  }

  ghost function TagsOf(s: Bytes): seq<Bytes> {
    TagsFrom(s, 0)
  }

  method Split(s: Bytes) returns (ret: seq<Bytes>)
    ensures ret == TagsOf(s)
  {
    ret := [];
    var begin := FirstNotOf(s, 0);
    ghost var at := 0;
    while begin < |s|
      invariant at <= begin <= |s| && begin == FirstNotOf(s, at)
      invariant ret + TagsFrom(s, at) == TagsOf(s)
      decreases |s| - begin
    {
      var end := FirstOf(s, begin);
      assert begin < end;
      assert ret + TagsFrom(s, at) == ret + [s[begin..end]] + TagsFrom(s, end);
      ret := ret + [s[begin..end]];
      at := end;
      begin := FirstNotOf(s, end);
    }
  }

  lemma {:induction false} AllTags(s: Bytes, i: nat)
    requires i <= |s|
    ensures forall k :: 0 <= k < |TagsFrom(s, i)| ==> IsTag(TagsFrom(s, i)[k])
    decreases |s| - i
  {
    var begin := FirstNotOf(s, i);
    if begin < |s| {
      var end := FirstOf(s, begin);
      AllTags(s, end);
    }
  }

  /** A tag is its own only tag, so a filter split per tag is split no further. */
  lemma OneTag(t: Bytes)
    requires IsTag(t)
    ensures TagsOf(t) == [t]
  {
    assert t[0] in t;
    assert FirstNotOf(t, 0) == 0;
    var end := FirstOf(t, 0);
    assert t[0..end] == t;
    assert TagsFrom(t, end) == [];
  }

  /** Tags written one behind another with delimiters between. */
  ghost function Join(tags: seq<Bytes>): Bytes {
    if tags == [] then [] else tags[0] + [DELIM] + Join(tags[1..])
  }

  /** Splitting undoes joining. */
  lemma {:induction false} SplitJoin(tags: seq<Bytes>)
    requires forall k :: 0 <= k < |tags| ==> IsTag(tags[k])
    ensures TagsOf(Join(tags)) == tags
    decreases |tags|
  {
    if tags != [] {
      var t, s := tags[0], Join(tags);
      var rest := Join(tags[1..]);
      SplitJoin(tags[1..]);
      assert s[..|t|] == t && s[|t|] == DELIM && s[|t| + 1..] == rest;
      assert t[0] in t;
      assert FirstNotOf(s, 0) == 0;
      FirstIs(s, 0, |t|, t);
      assert s[0..|t|] == t;
      TagsShift(s, |t|, |t| + 1);
      TagsDrop(s, |t| + 1);
    }
  }

  /** Two tags with a byte 1 between. */
  lemma SplitsAtOne(a: Bytes, b: Bytes)
    requires a != [] && b != [] && 1 !in a && 1 !in b
    ensures TagsOf(a + [1] + b) == [a, b]
  {
    SplitJoin([a, b]);
    var s := a + [1] + b;
    assert [a, b][1..] == [b] && Join([b]) == b + [1] + [] by {
      assert [b][1..] == [];
    }
    assert Join([a, b]) == s + [1];
    LastDelimiter(s);
  }

  /** A delimiter at the end makes no tag. */
  lemma LastDelimiter(s: Bytes)
    ensures TagsOf(s + [DELIM]) == TagsOf(s)
  {
    TagsBefore(s, 0);
  }

  lemma {:induction false} TagsBefore(s: Bytes, i: nat)
    requires i <= |s|
    ensures TagsFrom(s + [DELIM], i) == TagsFrom(s, i)
    decreases |s| - i
  {
    var t := s + [DELIM];
    NotOfBefore(s, i);
    var begin := FirstNotOf(s, i);
    if begin < |s| {
      OfBefore(s, begin);
      var end := FirstOf(s, begin);
      assert t[begin..end] == s[begin..end];
      TagsBefore(s, end);
    }
  }

  lemma {:induction false} NotOfBefore(s: Bytes, i: nat)
    requires i <= |s|
    ensures FirstNotOf(s + [DELIM], i) == if FirstNotOf(s, i) < |s| then FirstNotOf(s, i) else |s| + 1
    decreases |s| - i
  {
    var t := s + [DELIM];
    if i < |s| && s[i] == DELIM {
      assert t[i] == s[i];
      NotOfBefore(s, i + 1);
    } else if i == |s| {
      assert t[i] == DELIM && FirstNotOf(t, i + 1) == i + 1;
    }
  }

  lemma {:induction false} OfBefore(s: Bytes, i: nat)
    requires i <= |s|
    ensures FirstOf(s + [DELIM], i) == FirstOf(s, i)
    decreases |s| - i
  {
    var t := s + [DELIM];
    if i < |s| && s[i] != DELIM {
      assert t[i] == s[i];
      OfBefore(s, i + 1);
    }
  }

  lemma FirstIs(s: Bytes, i: nat, end: nat, t: Bytes)
    requires i == 0 && end < |s| && s[end] == DELIM && s[..end] == t && DELIM !in t
    ensures FirstOf(s, i) == end
  {
    var r := FirstOf(s, i);
    assert forall j :: 0 <= j < end ==> s[j] == t[j];
  }

  lemma TagsShift(s: Bytes, i: nat, j: nat)
    requires i < j <= |s| && j == i + 1 && s[i] == DELIM
    ensures TagsFrom(s, i) == TagsFrom(s, j)
  {
    assert FirstNotOf(s, i) == FirstNotOf(s, j);
  }

  lemma {:induction false} FirstDrop(s: Bytes, i: nat, j: nat)
    requires i <= j <= |s|
    ensures FirstOf(s[i..], j - i) == FirstOf(s, j) - i && FirstNotOf(s[i..], j - i) == FirstNotOf(s, j) - i
    decreases |s| - j
  {
    if j < |s| {
      FirstDrop(s, i, j + 1);
    }
  }

  lemma Unfold(s: Bytes, i: nat)
    requires i <= |s|
    ensures var begin := FirstNotOf(s, i);
            if begin == |s| then TagsFrom(s, i) == []
            else var end := FirstOf(s, begin); TagsFrom(s, i) == [s[begin..end]] + TagsFrom(s, end)
  {
  }

  lemma {:induction false} TagsDropFrom(s: Bytes, i: nat, j: nat)
    requires i <= j <= |s|
    ensures TagsFrom(s[i..], j - i) == TagsFrom(s, j)
    decreases |s| - j
  {
    hide FirstOf, FirstNotOf, TagsFrom;
    FirstDrop(s, i, j);
    Unfold(s, j);
    Unfold(s[i..], j - i);
    var begin := FirstNotOf(s, j);
    if begin < |s| {
      FirstDrop(s, i, begin);
      var end := FirstOf(s, begin);
      assert begin < end;
      TagsDropFrom(s, i, end);
      assert s[i..][begin - i..end - i] == s[begin..end];
    }
  }

  lemma TagsDrop(s: Bytes, i: nat)
    requires i <= |s|
    ensures TagsFrom(s, i) == TagsOf(s[i..])
  {
    TagsDropFrom(s, i, i);
  }

  // ---- C strings ----

  /** What strtok_r sees of a value: the bytes before the first byte 0. */
  function CString(s: Bytes): (r: Bytes)
    ensures r <= s && 0 !in r && (0 !in s ==> r == s)
  {
    if s == [] || s[0] == 0 then [] else [s[0]] + CString(s[1..])
  }

  lemma {:induction false} TagBytes(s: Bytes, i: nat, t: Bytes, x: byte)
    requires i <= |s| && t in TagsFrom(s, i) && x in t
    ensures x in s
    decreases |s| - i
  {
    var begin := FirstNotOf(s, i);
    var end := FirstOf(s, begin);
    if t != s[begin..end] {
      TagBytes(s, end, t, x);
    }
  }

  /** Every byte that is no delimiter is in a tag. */
  lemma {:induction false} Covered(s: Bytes, i: nat, k: nat) returns (t: Bytes)
    requires i <= k < |s| && s[k] != DELIM
    ensures t in TagsFrom(s, i) && s[k] in t
    decreases |s| - i
  {
    var begin := FirstNotOf(s, i);
    var end := FirstOf(s, begin);
    if k < end {
      t := s[begin..end];
      assert t[k - begin] == s[k];
    } else {
      t := Covered(s, end, k);
    }
  }

  /** The tags a value is indexed under are all its tags if and only if it has no byte 0. */
  lemma CutAtZero(s: Bytes)
    ensures TagsOf(CString(s)) == TagsOf(s) <==> 0 !in s
  {
    if 0 in s {
      var k :| 0 <= k < |s| && s[k] == 0;
      var t := Covered(s, 0, k);
      if t in TagsOf(CString(s)) {
        TagBytes(CString(s), 0, t, 0);
        assert false;
      }
    }
  }

  /** The value A0B is indexed under A, and not under its one tag. */
  lemma CutLoses()
    ensures TagsOf(CString([65, 0, 66])) == [[65]] && TagsOf([65, 0, 66]) == [[65, 0, 66]]
  {
    assert CString([65, 0, 66]) == [65] by {
      assert [65, 0, 66][1..] == [0, 66];
    }
    OneTag([65]);
    OneTag([65, 0, 66]);
  }
}
