/** Sets of ids, and lists of ids without repetitions. */
module Lists {
  ghost predicate NoDup(s: seq<nat>) {
    forall i, j :: 0 <= i < j < |s| ==> s[i] != s[j]
  }

  function Elements(s: seq<nat>): set<nat> {
    set x | x in s
  }

  /** A list without repetitions has as many entries as it has ids. */
  lemma {:induction false} NoDupSize(s: seq<nat>)
    requires NoDup(s)
    ensures |Elements(s)| == |s|
  {
    if s != [] {
      var t := s[..|s| - 1];
      NoDupSize(t);
      var last := s[|s| - 1];
      assert last !in t;
      assert Elements(s) == Elements(t) + {last};
    }
  }

  lemma Appended(s: seq<nat>, x: nat)
    requires NoDup(s) && x !in s
    ensures NoDup(s + [x]) && Elements(s + [x]) == Elements(s) + {x}
  {
  }

  lemma OneMore(s: set<nat>, x: nat)
    requires x !in s
    ensures |s + {x}| == |s| + 1
  {
  }

  lemma OneLess(s: set<nat>, x: nat)
    requires x in s
    ensures |s| > 0 && |s - {x}| == |s| - 1
  {
  }

  lemma {:induction false} Smaller(s: set<nat>, t: set<nat>)
    requires s <= t
    ensures |s| <= |t|
    decreases |s|
  {
    if s != {} {
      var x :| x in s;
      Smaller(s - {x}, t - {x});
    }
  }
}
