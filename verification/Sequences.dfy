/** Facts about sequences that several components need. */
module Sequences {

  // ----- Sequences without repeats --------------------------------------------

  predicate IsDistinct<T(==)>(s: seq<T>) {
    forall i, j :: 0 <= i < j < |s| ==> s[i] != s[j]
  }

  function AsSet<T>(s: seq<T>): set<T> {
    set x | x in s
  }

  lemma {:induction false} DistinctSize<T>(s: seq<T>)
    requires IsDistinct(s)
    ensures |AsSet(s)| == |s|
  {
    if s != [] {
      var n := |s| - 1;
      DistinctSize(s[..n]);
      assert s[n] !in s[..n];
      assert AsSet(s) == AsSet(s[..n]) + {s[n]};
    }
  }

  lemma {:induction false} SetIsSmaller<T>(s: seq<T>)
    ensures |AsSet(s)| <= |s|
    ensures |AsSet(s)| == |s| ==> IsDistinct(s)
  {
    if s != [] {
      var n := |s| - 1;
      SetIsSmaller(s[..n]);
      assert AsSet(s) == AsSet(s[..n]) + {s[n]};
      if s[n] in s[..n] {
        assert AsSet(s) == AsSet(s[..n]);
      }
    }
  }

  lemma SubsetOfSameSize<T>(a: set<T>, b: set<T>)
    requires a <= b && |a| == |b|
    ensures a == b
  {
    var rest := b - a;
    assert b == a + rest;
  }

  /** As many elements as `all` has, none repeated and all of them from it: every
      element of `all` is there. */
  lemma DistinctCovers<T>(some: seq<T>, all: seq<T>)
    requires IsDistinct(some) && (forall x :: x in some ==> x in all) && |some| >= |all|
    ensures forall x :: x in all ==> x in some
  {
    DistinctSize(some);
    SetIsSmaller(all);
    assert AsSet(some) <= AsSet(all) by {
      forall x | x in AsSet(some)
        ensures x in AsSet(all)
      {
        assert x in some;
      }
    }
    SetsOfSubsets(AsSet(some), AsSet(all));
    SubsetOfSameSize(AsSet(some), AsSet(all));
    forall x | x in all
      ensures x in some
    {
      assert x in AsSet(all);
    }
  }

  lemma SetsOfSubsets<T>(a: set<T>, b: set<T>)
    requires a <= b
    ensures |a| <= |b|
  {
    assert b == a + (b - a);
  }

  // ----- Concatenation --------------------------------------------------------

  lemma Assoc<T>(a: seq<T>, b: seq<T>, c: seq<T>)
    ensures a + b + c == a + (b + c)
  {}

  lemma Parts<T>(s: seq<T>, n: nat)
    requires n <= |s|
    ensures s == s[..n] + s[n..]
  {}

  lemma Cons<T>(x: T, s: seq<T>, n: nat)
    requires 0 < n <= |s| + 1
    ensures ([x] + s)[..n] == [x] + s[..n - 1] && ([x] + s)[n..] == s[n - 1..]
  {}

  lemma SameHead<T>(first: seq<T>, a: seq<T>, b: seq<T>)
    ensures first + a == first + b ==> a == b
  {
    assert (first + a)[|first|..] == a && (first + b)[|first|..] == b;
  }

  // ----- The order of strings -------------------------------------------------

  /** By the first difference, a prefix first. */
  predicate Less(a: string, b: string) {
    b != "" && (a == "" || a[0] < b[0] || (a[0] == b[0] && Less(a[1..], b[1..])))
  }

  lemma {:induction false} LessIsTotal(a: string, b: string)
    ensures Less(a, b) || a == b || Less(b, a)
    ensures !(Less(a, b) && Less(b, a)) && !Less(a, a)
    decreases |a|
  {
    if a != "" {
      LessIsTotal(a[1..], a[1..]);
      if b != "" && a[0] == b[0] {
        LessIsTotal(a[1..], b[1..]);
        assert a == [a[0]] + a[1..] && b == [b[0]] + b[1..];
      }
    }
  }

  lemma {:induction false} LessIsTransitive(a: string, b: string, c: string)
    requires Less(a, b) && Less(b, c)
    ensures Less(a, c)
    decreases |a|
  {
    if a != "" && a[0] == b[0] == c[0] {
      LessIsTransitive(a[1..], b[1..], c[1..]);
    }
  }

  /** Texts whose first parts have one length are ordered by them, then by the rest. */
  lemma {:induction false} LessByParts(a: string, b: string, restOfA: string, restOfB: string)
    requires |a| == |b|
    ensures Less(a + restOfA, b + restOfB) <==> Less(a, b) || (a == b && Less(restOfA, restOfB))
    decreases |a|
  {
    if a == "" {
      assert a + restOfA == restOfA && b + restOfB == restOfB;
    } else {
      assert (a + restOfA)[1..] == a[1..] + restOfA && (b + restOfB)[1..] == b[1..] + restOfB;
      assert a == [a[0]] + a[1..] && b == [b[0]] + b[1..];
      LessByParts(a[1..], b[1..], restOfA, restOfB);
      LessIsTotal(a, b);
    }
  }

  // ----- Trimming -------------------------------------------------------------

  function TrimStart<T>(s: seq<T>, drop: T -> bool): seq<T> {
    if s != [] && drop(s[0]) then TrimStart(s[1..], drop) else s
  }

  function TrimEnd<T>(s: seq<T>, drop: T -> bool): seq<T> {
    if s != [] && drop(s[|s| - 1]) then TrimEnd(s[..|s| - 1], drop) else s
  }

  function Trim<T>(s: seq<T>, drop: T -> bool): seq<T> {
    TrimEnd(TrimStart(s, drop), drop)
  }

  predicate All<T>(s: seq<T>, keep: T -> bool) {
    forall i :: 0 <= i < |s| ==> keep(s[i])
  }

  lemma {:induction false} TrimStartStops<T>(before: seq<T>, core: seq<T>, drop: T -> bool)
    requires All(before, drop) && core != [] && !drop(core[0])
    ensures TrimStart(before + core, drop) == core
    decreases |before|
  {
    if before == [] {
      assert before + core == core;
    } else {
      assert (before + core)[1..] == before[1..] + core;
      TrimStartStops(before[1..], core, drop);
    }
  }

  lemma {:induction false} TrimEndStops<T>(core: seq<T>, after: seq<T>, drop: T -> bool)
    requires All(after, drop) && core != [] && !drop(core[|core| - 1])
    ensures TrimEnd(core + after, drop) == core
    decreases |after|
  {
    if after == [] {
      assert core + after == core;
    } else {
      assert (core + after)[..|core + after| - 1] == core + after[..|after| - 1];
      TrimEndStops(core, after[..|after| - 1], drop);
    }
  }

  lemma Trimmed<T>(before: seq<T>, core: seq<T>, after: seq<T>, drop: T -> bool)
    requires All(before, drop) && All(after, drop)
    requires core != [] && !drop(core[0]) && !drop(core[|core| - 1])
    ensures Trim(before + core + after, drop) == core
  {
    assert before + core + after == before + (core + after);
    TrimStartStops(before, core + after, drop);
    TrimEndStops(core, after, drop);
  }

  /** Trimming the end removes nothing up to an element that stays. */
  lemma {:induction false} TrimEndKeeps<T>(head: seq<T>, tail: seq<T>, drop: T -> bool) returns (left: seq<T>)
    requires head != [] && !drop(head[|head| - 1])
    ensures TrimEnd(head + tail, drop) == head + left && left <= tail
    decreases |tail|
  {
    var chars := head + tail;
    if tail == [] || !drop(chars[|chars| - 1]) {
      left := tail;
    } else {
      assert chars[..|chars| - 1] == head + tail[..|tail| - 1];
      left := TrimEndKeeps(head, tail[..|tail| - 1], drop);
    }
  }

  lemma {:induction false} AllTrimmed<T>(s: seq<T>, drop: T -> bool)
    requires All(s, drop)
    ensures Trim(s, drop) == []
    decreases |s|
  {
    if s != [] {
      AllTrimmed(s[1..], drop);
    }
  }

  /** What trimming takes away is to be dropped, on either side. */
  lemma TrimParts<T>(s: seq<T>, drop: T -> bool) returns (before: seq<T>, after: seq<T>)
    ensures s == before + Trim(s, drop) + after && All(before, drop) && All(after, drop)
  {
    before := StartParts(s, drop);
    after := EndParts(TrimStart(s, drop), drop);
    Assoc(before, Trim(s, drop), after);
  }

  lemma {:induction false} StartParts<T>(s: seq<T>, drop: T -> bool) returns (before: seq<T>)
    ensures s == before + TrimStart(s, drop) && All(before, drop)
    decreases |s|
  {
    if s != [] && drop(s[0]) {
      var more := StartParts(s[1..], drop);
      before := [s[0]] + more;
      Assoc([s[0]], more, TrimStart(s, drop));
    } else {
      before := [];
    }
  }

  lemma {:induction false} EndParts<T>(s: seq<T>, drop: T -> bool) returns (after: seq<T>)
    ensures s == TrimEnd(s, drop) + after && All(after, drop)
    decreases |s|
  {
    if s != [] && drop(s[|s| - 1]) {
      var n := |s| - 1;
      var more := EndParts(s[..n], drop);
      after := more + [s[n]];
      Assoc(TrimEnd(s, drop), more, [s[n]]);
    } else {
      after := [];
    }
  }
}
