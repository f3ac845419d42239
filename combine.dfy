/**
 * `combine_vectors_with_ordering`: merges two cumulative-length vectors after
 * normalising each by its own last element. For every element of the first
 * vector, the not-yet-emitted elements of the second vector that are strictly
 * smaller are emitted first; elements of the second vector still left when
 * the first vector runs out are dropped.
 */
module CombineVectors {

  /** Non-decreasing. */
  predicate Sorted(s: seq<real>)
  {
    forall i, j :: 0 <= i <= j < |s| ==> s[i] <= s[j]
  }

  function Last(s: seq<real>): real
    requires |s| > 0
  {
    s[|s| - 1]
  }

  /** Every element divided by `s`. */
  function Normalise(v: seq<real>, s: real): seq<real>
    requires s != 0.0
  {
    seq(|v|, i requires 0 <= i < |v| => Scaled(v[i], s))
  }

  /** One element divided by the total. */
  function Scaled(x: real, s: real): real
    requires s != 0.0
  {
    x / s
  }

  /**
   * The merge as the loop performs it: an element of `b` goes first only while
   * it is strictly below the current element of `a`; once `a` is exhausted the
   * rest of `b` is dropped.
   */
  function Merge(a: seq<real>, b: seq<real>): seq<real>
    decreases |a| + |b|
  {
    if a == [] then []
    else if b != [] && b[0] < a[0] then [b[0]] + Merge(a, b[1..])
    else [a[0]] + Merge(a[1..], b)
  }

  /** Length of the longest prefix of `b` whose elements are all strictly below `bound`. */
  function Taken(b: seq<real>, bound: real): (k: nat)
    ensures k <= |b|
    ensures forall j :: 0 <= j < k ==> b[j] < bound
    ensures k < |b| ==> b[k] >= bound
  {
    if b != [] && b[0] < bound then 1 + Taken(b[1..], bound) else 0
  }

  /** The combined vector for two cumulative-length vectors. */
  function Combined(v1: seq<real>, v2: seq<real>): seq<real>
    requires |v1| > 0 && |v2| > 0
    requires Last(v1) != 0.0 && Last(v2) != 0.0
  {
    Merge(Normalise(v1, Last(v1)), Normalise(v2, Last(v2)))
  }

  /**
   * The source's loop: a `for` over `v1` with a nested loop over a peekable
   * iterator on `v2`. The two `unwrap`s demand non-empty inputs; a zero last
   * element would divide by zero.
   */
  method CombineVectorsWithOrdering(v1: seq<real>, v2: seq<real>) returns (combined: seq<real>)
    requires |v1| > 0 && |v2| > 0
    requires Last(v1) != 0.0 && Last(v2) != 0.0
    ensures combined == Combined(v1, v2)
  {
    combined := [];
    var s1 := v1[|v1| - 1];
    var s2 := v2[|v2| - 1];
    var j := 0;
    for i := 0 to |v1|
      invariant 0 <= j <= |v2|
      invariant Emitted(Normalise(v1, s1), Normalise(v2, s2), i, j, combined)
    {
      while j < |v2|
        invariant 0 <= j <= |v2|
        invariant Emitted(Normalise(v1, s1), Normalise(v2, s2), i, j, combined)
      {
        if Scaled(v2[j], s2) < Scaled(v1[i], s1) {
          MergeTakesB(v1, v2, s1, s2, i, j, combined);
          combined := combined + [Scaled(v2[j], s2)];
          j := j + 1;
        } else {
          break;
        }
      }
      MergeTakesA(v1, v2, s1, s2, i, j, combined);
      combined := combined + [Scaled(v1[i], s1)];
    }
    EmittedAll(Normalise(v1, s1), Normalise(v2, s2), j, combined);
  }

  /** `done` followed by the merge of what is left at `i` and `j` is the whole merge. */
  predicate Emitted(a: seq<real>, b: seq<real>, i: nat, j: nat, done: seq<real>)
    requires i <= |a| && j <= |b|
  {
    done + Merge(a[i..], b[j..]) == Merge(a, b)
  }

  /** Once `a` is used up, what was emitted is the whole merge. */
  lemma EmittedAll(a: seq<real>, b: seq<real>, j: nat, done: seq<real>)
    requires j <= |b| && Emitted(a, b, |a|, j, done)
    ensures done == Merge(a, b)
  {
    assert a[|a|..] == [];
  }

  /**
   * At positions `i` and `j`, an element of `v2` whose scaled value is strictly
   * below that of the current one of `v1` is the next one the merge emits.
   */
  lemma MergeTakesB(v1: seq<real>, v2: seq<real>, s1: real, s2: real, i: nat, j: nat, done: seq<real>)
    requires s1 != 0.0 && s2 != 0.0
    requires i < |v1| && j < |v2| && Scaled(v2[j], s2) < Scaled(v1[i], s1)
    requires Emitted(Normalise(v1, s1), Normalise(v2, s2), i, j, done)
    ensures Emitted(Normalise(v1, s1), Normalise(v2, s2), i, j + 1, done + [Scaled(v2[j], s2)])
  {
    var a, b := Normalise(v1, s1), Normalise(v2, s2);
    assert a[i] == Scaled(v1[i], s1) && b[j] == Scaled(v2[j], s2);
    assert b[j..][1..] == b[j + 1..];
    assert Merge(a[i..], b[j..]) == [b[j]] + Merge(a[i..], b[j + 1..]);
    assert (done + [b[j]]) + Merge(a[i..], b[j + 1..]) == done + ([b[j]] + Merge(a[i..], b[j + 1..]));
  }

  /** Otherwise the current element of `v1`, scaled, is the next one the merge emits. */
  lemma MergeTakesA(v1: seq<real>, v2: seq<real>, s1: real, s2: real, i: nat, j: nat, done: seq<real>)
    requires s1 != 0.0 && s2 != 0.0
    requires i < |v1| && j <= |v2| && (j < |v2| ==> Scaled(v2[j], s2) >= Scaled(v1[i], s1))
    requires Emitted(Normalise(v1, s1), Normalise(v2, s2), i, j, done)
    ensures Emitted(Normalise(v1, s1), Normalise(v2, s2), i + 1, j, done + [Scaled(v1[i], s1)])
  {
    var a, b := Normalise(v1, s1), Normalise(v2, s2);
    assert a[i] == Scaled(v1[i], s1);
    assert a[i..][1..] == a[i + 1..];
    assert Merge(a[i..], b[j..]) == [a[i]] + Merge(a[i + 1..], b[j..]);
    assert (done + [a[i]]) + Merge(a[i + 1..], b[j..]) == done + ([a[i]] + Merge(a[i + 1..], b[j..]));
  }

  /** The merge of two non-decreasing sequences is non-decreasing. */
  lemma {:induction false} MergeSorted(a: seq<real>, b: seq<real>)
    requires Sorted(a) && Sorted(b)
    ensures Sorted(Merge(a, b))
    decreases |a| + |b|
  {
    if a == [] {
    } else if b != [] && b[0] < a[0] {
      MergeSorted(a, b[1..]);
      var rest := Merge(a, b[1..]);
      assert rest != [] ==> b[0] <= rest[0];
      assert Merge(a, b) == [b[0]] + rest;
    } else {
      MergeSorted(a[1..], b);
      var rest := Merge(a[1..], b);
      assert rest != [] ==> a[0] <= rest[0];
      assert Merge(a, b) == [a[0]] + rest;
    }
  }

  /**
   * The first `|pos|` elements of `s` appear in `m`, in order, at the strictly
   * increasing positions `pos`.
   */
  ghost predicate Placed(s: seq<real>, m: seq<real>, pos: seq<nat>)
  {
    && |pos| <= |s|
    && (forall i :: 0 <= i < |pos| ==> pos[i] < |m| && m[pos[i]] == s[i])
    && (forall i, j :: 0 <= i < j < |pos| ==> pos[i] < pos[j])
  }

  /** An element put in front of `m` moves every placement one position on. */
  lemma PlacedShift(s: seq<real>, m: seq<real>, pos: seq<nat>, x: real) returns (moved: seq<nat>)
    requires Placed(s, m, pos)
    ensures |moved| == |pos| && Placed(s, [x] + m, moved)
  {
    moved := seq(|pos|, i requires 0 <= i < |pos| => pos[i] + 1);
  }

  /** The same element put in front of both `s` and `m` is placed at position 0. */
  lemma PlacedCons(x: real, s: seq<real>, m: seq<real>, pos: seq<nat>) returns (moved: seq<nat>)
    requires Placed(s, m, pos)
    ensures |moved| == |pos| + 1 && Placed([x] + s, [x] + m, moved)
  {
    moved := [0] + seq(|pos|, i requires 0 <= i < |pos| => pos[i] + 1);
    var s', m' := [x] + s, [x] + m;
    forall i | 0 <= i < |moved|
      ensures moved[i] < |m'| && m'[moved[i]] == s'[i]
    {
      if i > 0 {
        var k := i - 1;
        assert moved[i] == pos[k] + 1;
        assert m'[pos[k] + 1] == m[pos[k]];
        assert s'[k + 1] == s[k];
      }
    }
    forall i, j | 0 <= i < j < |moved|
      ensures moved[i] < moved[j]
    {
      assert moved[j] == pos[j - 1] + 1;
      if i > 0 {
        assert moved[i] == pos[i - 1] + 1;
      }
    }
    assert Placed(s', m', moved);
  }

  /** Every element of `a` appears in the merge, in order. */
  lemma {:induction false} MergeKeepsA(a: seq<real>, b: seq<real>) returns (pos: seq<nat>)
    ensures |pos| == |a| && Placed(a, Merge(a, b), pos)
    decreases |a| + |b|
  {
    if a == [] {
      pos := [];
    } else if b != [] && b[0] < a[0] {
      var p := MergeKeepsA(a, b[1..]);
      MergeConsB(a, b);
      pos := PlacedShift(a, Merge(a, b[1..]), p, b[0]);
    } else {
      var p := MergeKeepsA(a[1..], b);
      MergeConsA(a, b);
      pos := PlacedCons(a[0], a[1..], Merge(a[1..], b), p);
      HeadTail(a);
    }
  }

  /**
   * When `a` is non-decreasing, the elements of `b` that are emitted are the
   * prefix below the last element of `a`, in order.
   */
  lemma {:induction false} MergeKeepsTakenB(a: seq<real>, b: seq<real>) returns (pos: seq<nat>)
    requires |a| > 0 && Sorted(a)
    ensures |pos| == Taken(b, Last(a)) && Placed(b, Merge(a, b), pos)
    decreases |a| + |b|
  {
    if b != [] && b[0] < a[0] {
      assert a[0] <= Last(a);
      var p := MergeKeepsTakenB(a, b[1..]);
      MergeConsB(a, b);
      pos := PlacedCons(b[0], b[1..], Merge(a, b[1..]), p);
      HeadTail(b);
    } else if |a| == 1 {
      pos := [];
    } else {
      TailSorted(a);
      var p := MergeKeepsTakenB(a[1..], b);
      MergeConsA(a, b);
      pos := PlacedShift(b, Merge(a[1..], b), p, a[0]);
    }
  }

  /**
   * When `a` is non-decreasing, the merge holds exactly the elements of `a`
   * and of the prefix of `b` below the last element of `a`, and nothing else.
   */
  lemma {:induction false} MergeContents(a: seq<real>, b: seq<real>)
    requires |a| > 0 && Sorted(a)
    ensures multiset(Merge(a, b)) == multiset(a) + multiset(b[..Taken(b, Last(a))])
    decreases |a| + |b|
  {
    if b != [] && b[0] < a[0] {
      MergeContents(a, b[1..]);
      ContentsTakeB(a, b);
    } else if |a| == 1 {
      ContentsLastA(a, b);
    } else {
      TailSorted(a);
      MergeContents(a[1..], b);
      ContentsTakeA(a, b);
    }
  }

  /** The tail of a non-decreasing sequence is non-decreasing and has the same last element. */
  lemma TailSorted(a: seq<real>)
    requires |a| > 1 && Sorted(a)
    ensures Sorted(a[1..]) && Last(a[1..]) == Last(a)
  {
  }

  /** The merge emits the first element of `b` when it is strictly below the first of `a`. */
  lemma MergeConsB(a: seq<real>, b: seq<real>)
    requires a != [] && b != [] && b[0] < a[0]
    ensures Merge(a, b) == [b[0]] + Merge(a, b[1..])
  {
  }

  /** Otherwise it emits the first element of `a`. */
  lemma MergeConsA(a: seq<real>, b: seq<real>)
    requires a != [] && (b != [] ==> b[0] >= a[0])
    ensures Merge(a, b) == [a[0]] + Merge(a[1..], b)
  {
  }

  /** An element put in front of the merged sequence and of the first part. */
  lemma ConsToFirst(x: real, m: seq<real>, s: seq<real>, t: seq<real>)
    requires multiset(m) == multiset(s) + multiset(t)
    ensures multiset([x] + m) == multiset([x] + s) + multiset(t)
  {
    assert multiset([x] + m) == multiset{x} + multiset(m);
    assert multiset([x] + s) == multiset{x} + multiset(s);
  }

  /** An element put in front of the merged sequence and of the second part. */
  lemma ConsToSecond(x: real, m: seq<real>, s: seq<real>, t: seq<real>)
    requires multiset(m) == multiset(s) + multiset(t)
    ensures multiset([x] + m) == multiset(s) + multiset([x] + t)
  {
    assert multiset([x] + m) == multiset{x} + multiset(m);
    assert multiset([x] + t) == multiset{x} + multiset(t);
  }

  /** An element of `b` below the first of a non-decreasing `a` starts the prefix below its last. */
  lemma TakenFirst(a: seq<real>, b: seq<real>)
    requires |a| > 0 && Sorted(a) && b != [] && b[0] < a[0]
    ensures Taken(b, Last(a)) == 1 + Taken(b[1..], Last(a))
    ensures b[..Taken(b, Last(a))] == [b[0]] + b[1..][..Taken(b[1..], Last(a))]
  {
    assert a[0] <= Last(a);
    PrefixCons(b, Taken(b[1..], Last(a)));
  }

  /** A non-empty sequence is its first element followed by its tail. */
  lemma HeadTail(s: seq<real>)
    requires |s| > 0
    ensures [s[0]] + s[1..] == s
  {
  }

  /** A prefix of `k + 1` elements is the first element followed by `k` elements of the tail. */
  lemma PrefixCons(b: seq<real>, k: nat)
    requires k < |b|
    ensures b[..k + 1] == [b[0]] + b[1..][..k]
  {
  }

  /** The contents of the merge when an element of `b` goes first. */
  lemma ContentsTakeB(a: seq<real>, b: seq<real>)
    requires |a| > 0 && Sorted(a) && b != [] && b[0] < a[0]
    requires multiset(Merge(a, b[1..])) == multiset(a) + multiset(b[1..][..Taken(b[1..], Last(a))])
    ensures multiset(Merge(a, b)) == multiset(a) + multiset(b[..Taken(b, Last(a))])
  {
    TakenFirst(a, b);
    MergeConsB(a, b);
    ConsToSecond(b[0], Merge(a, b[1..]), a, b[1..][..Taken(b[1..], Last(a))]);
  }

  /** The contents of the merge when the last element of `a` goes next. */
  lemma ContentsLastA(a: seq<real>, b: seq<real>)
    requires |a| == 1 && (b != [] ==> b[0] >= a[0])
    ensures multiset(Merge(a, b)) == multiset(a) + multiset(b[..Taken(b, Last(a))])
  {
    assert Taken(b, Last(a)) == 0;
    assert b[..0] == [];
    MergeConsA(a, b);
    assert Merge(a[1..], b) == [];
    assert a == [a[0]];
  }

  /** The contents of the merge when an element of `a` other than its last goes next. */
  lemma ContentsTakeA(a: seq<real>, b: seq<real>)
    requires |a| > 1 && (b != [] ==> b[0] >= a[0])
    requires multiset(Merge(a[1..], b)) == multiset(a[1..]) + multiset(b[..Taken(b, Last(a))])
    ensures multiset(Merge(a, b)) == multiset(a) + multiset(b[..Taken(b, Last(a))])
  {
    MergeConsA(a, b);
    ConsToFirst(a[0], Merge(a[1..], b), a[1..], b[..Taken(b, Last(a))]);
    HeadTail(a);
  }

  /** So the merge is `|a|` long plus the length of the prefix of `b` below the last element of `a`. */
  lemma MergeLength(a: seq<real>, b: seq<real>)
    requires |a| > 0 && Sorted(a)
    ensures |Merge(a, b)| == |a| + Taken(b, Last(a))
  {
    MergeContents(a, b);
    assert |multiset(Merge(a, b))| == |Merge(a, b)|;
  }

  /** When `b` is non-decreasing, the elements left out of the prefix are all at or above the bound. */
  lemma TakenSplitsSorted(b: seq<real>, bound: real)
    requires Sorted(b)
    ensures forall j :: Taken(b, bound) <= j < |b| ==> b[j] >= bound
  {
  }

  /** Dividing a non-decreasing sequence by a positive number keeps it non-decreasing. */
  lemma NormaliseSorted(v: seq<real>, s: real)
    requires Sorted(v) && s > 0.0
    ensures Sorted(Normalise(v, s))
  {
    var n := Normalise(v, s);
    forall i, j | 0 <= i <= j < |n| ensures n[i] <= n[j] {
      assert v[i] <= v[j];
      assert v[i] / s <= v[j] / s;
    }
  }

  /** The merge of a non-empty `a` ends with the last element of `a`. */
  lemma {:induction false} MergeEndsWithA(a: seq<real>, b: seq<real>)
    requires |a| > 0
    ensures |Merge(a, b)| > 0 && Last(Merge(a, b)) == Last(a)
    decreases |a| + |b|
  {
    if b != [] && b[0] < a[0] {
      MergeEndsWithA(a, b[1..]);
    } else if |a| == 1 {
      assert Merge(a, b) == [a[0]];
    } else {
      MergeEndsWithA(a[1..], b);
    }
  }

  /** A vector normalised by its own last element ends at exactly 1. */
  lemma NormalisedEndsAtOne(v: seq<real>)
    requires |v| > 0 && Last(v) != 0.0
    ensures |Normalise(v, Last(v))| > 0 && Last(Normalise(v, Last(v))) == 1.0
  {
    var x := Last(v);
    assert Normalise(v, x)[|v| - 1] == x / x;
  }

  /**
   * The combined vector of two non-decreasing vectors with positive totals is
   * non-decreasing and ends at exactly 1. Its length is `|v1|` plus the number
   * of normalised `v2` entries strictly below 1; the last entry of `v2`, which
   * normalises to 1, is never among them, and every entry left out is at or
   * above 1.
   */
  lemma CombinedProperties(v1: seq<real>, v2: seq<real>)
    requires |v1| > 0 && |v2| > 0
    requires Sorted(v1) && Sorted(v2)
    requires Last(v1) > 0.0 && Last(v2) > 0.0
    ensures var r := Combined(v1, v2);
      && Sorted(r)
      && |r| > 0 && Last(r) == 1.0
      && |r| == |v1| + Taken(Normalise(v2, Last(v2)), 1.0)
      && Taken(Normalise(v2, Last(v2)), 1.0) < |v2|
    ensures forall j :: Taken(Normalise(v2, Last(v2)), 1.0) <= j < |v2| ==> Normalise(v2, Last(v2))[j] >= 1.0
  {
    var a := Normalise(v1, Last(v1));
    var b := Normalise(v2, Last(v2));
    NormaliseSorted(v1, Last(v1));
    NormaliseSorted(v2, Last(v2));
    NormalisedEndsAtOne(v1);
    NormalisedEndsAtOne(v2);
    MergeSorted(a, b);
    MergeEndsWithA(a, b);
    MergeLength(a, b);
    TakenSplitsSorted(b, 1.0);
  }

  /** The worked case of the source's unit test: nine entries, the last of `v2` dropped. */
  lemma CheckVectorOrdering()
    ensures Combined([0.0, 0.3, 0.6, 0.8, 1.0], [0.2, 0.5, 0.55, 0.8, 2.0])
         == [0.0, 0.1, 0.25, 0.275, 0.3, 0.4, 0.6, 0.8, 1.0]
  {
    assert Normalise([0.0, 0.3, 0.6, 0.8, 1.0], 1.0) == [0.0, 0.3, 0.6, 0.8, 1.0];
    assert Normalise([0.2, 0.5, 0.55, 0.8, 2.0], 2.0) == [0.1, 0.25, 0.275, 0.4, 1.0];
    MergeWorkedCase();
  }

  /** The merge of the normalised vectors of the worked case. */
  lemma MergeWorkedCase()
    ensures Merge([0.0, 0.3, 0.6, 0.8, 1.0], [0.1, 0.25, 0.275, 0.4, 1.0])
         == [0.0, 0.1, 0.25, 0.275, 0.3, 0.4, 0.6, 0.8, 1.0]
  {
    MergeWorkedTail();
    assert Merge([0.3, 0.6, 0.8, 1.0], [0.275, 0.4, 1.0]) == [0.275, 0.3, 0.4, 0.6, 0.8, 1.0];
    assert Merge([0.3, 0.6, 0.8, 1.0], [0.25, 0.275, 0.4, 1.0]) == [0.25, 0.275, 0.3, 0.4, 0.6, 0.8, 1.0];
    assert Merge([0.3, 0.6, 0.8, 1.0], [0.1, 0.25, 0.275, 0.4, 1.0])
        == [0.1, 0.25, 0.275, 0.3, 0.4, 0.6, 0.8, 1.0];
  }

  /** The last five steps of the worked merge. */
  lemma MergeWorkedTail()
    ensures Merge([0.3, 0.6, 0.8, 1.0], [0.4, 1.0]) == [0.3, 0.4, 0.6, 0.8, 1.0]
  {
    assert Merge([1.0], [1.0]) == [1.0];
    assert Merge([0.8, 1.0], [1.0]) == [0.8, 1.0];
    assert Merge([0.6, 0.8, 1.0], [1.0]) == [0.6, 0.8, 1.0];
    assert Merge([0.6, 0.8, 1.0], [0.4, 1.0]) == [0.4, 0.6, 0.8, 1.0];
  }

  /**
   * The ordering assumption matters: with a `v1` that is not non-decreasing,
   * the last entry of `v2` is emitted, so the result is not non-decreasing and
   * has one entry more than `CombinedProperties` gives for sorted inputs.
   */
  lemma UnsortedKeepsLastOfV2()
    ensures Combined([2.0, 1.0], [1.0]) == [1.0, 2.0, 1.0]
  {
    assert Normalise([2.0, 1.0], 1.0) == [2.0, 1.0];
    assert Normalise([1.0], 1.0) == [1.0];
    assert Merge([2.0, 1.0], [1.0]) == [1.0] + Merge([2.0, 1.0], []);
  }
}
