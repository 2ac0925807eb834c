/**
 Model of `arg_sort` and `permute` (turbo/algorithm/algorithm.h): indices that sort
 a vector, and the in-place gather that applies them by following cycles.
 */
module Permute {

  /** `p` maps the positions 0..|p|-1 one to one onto themselves. */
  ghost predicate IsPermutation(p: seq<int>) {
    && (forall i :: 0 <= i < |p| ==> 0 <= p[i] < |p|)
    && (forall i, j :: 0 <= i < |p| && 0 <= j < |p| && p[i] == p[j] ==> i == j)
  }

  // ---- Cycles ----

  /** The position reached from `i` after following `p` `k` times. */
  ghost function Follow(p: seq<int>, i: int, k: nat): (r: int)
    requires IsPermutation(p) && 0 <= i < |p|
    ensures 0 <= r < |p|
  {
    if k == 0 then i else p[Follow(p, i, k - 1)]
  }

  ghost predicate Reaches(p: seq<int>, i: int, j: int)
    requires IsPermutation(p) && 0 <= i < |p|
  {
    exists k: nat :: Follow(p, i, k) == j
  }

  /** The cycle of `p` through `i`. */
  ghost function Cycle(p: seq<int>, i: int): set<int>
    requires IsPermutation(p) && 0 <= i < |p|
  {
    set j | 0 <= j < |p| && Reaches(p, i, j)
  }

  /** All cycles of `p`, fixed points included. */
  ghost function Cycles(p: seq<int>): set<set<int>>
    requires IsPermutation(p)
  {
    set i | 0 <= i < |p| :: Cycle(p, i)
  }

  /** `i` is the least position of its cycle. */
  ghost predicate IsLeast(p: seq<int>, i: int)
    requires IsPermutation(p) && 0 <= i < |p|
  {
    forall j :: j in Cycle(p, i) ==> i <= j
  }

  lemma ReachesSelf(p: seq<int>, i: int)
    requires IsPermutation(p) && 0 <= i < |p|
    ensures Reaches(p, i, i)
  {
    assert Follow(p, i, 0) == i;
  }

  lemma ReachesNext(p: seq<int>, i: int, j: int)
    requires IsPermutation(p) && 0 <= i < |p| && 0 <= j < |p| && Reaches(p, i, j)
    ensures Reaches(p, i, p[j])
  {
    var k: nat :| Follow(p, i, k) == j;
    assert Follow(p, i, k + 1) == p[j];
  }

  lemma {:induction false} FollowAdds(p: seq<int>, i: int, j: nat, k: nat)
    requires IsPermutation(p) && 0 <= i < |p|
    ensures Follow(p, Follow(p, i, j), k) == Follow(p, i, j + k)
  {
    if k > 0 {
      FollowAdds(p, i, j, k - 1);
    }
  }

  lemma ReachesTransitive(p: seq<int>, a: int, b: int, c: int)
    requires IsPermutation(p) && 0 <= a < |p| && 0 <= b < |p| && Reaches(p, a, b) && Reaches(p, b, c)
    ensures Reaches(p, a, c)
  {
    var j: nat :| Follow(p, a, j) == b;
    var k: nat :| Follow(p, b, k) == c;
    FollowAdds(p, a, j, k);
  }

  lemma {:induction false} FollowStays(p: seq<int>, s: set<int>, i: int, k: nat)
    requires IsPermutation(p) && 0 <= i < |p| && i in s
    requires forall x :: 0 <= x < |p| && x in s ==> p[x] in s
    ensures Follow(p, i, k) in s
  {
    if k > 0 {
      FollowStays(p, s, i, k - 1);
    }
  }

  // ---- One cycle ----

  /**
   The walk of the inner loop: it has left `visited` behind, stands at `at`, and
   began at `start`.
   */
  ghost predicate Walking(p: seq<int>, start: int, visited: set<int>, at: int)
    requires IsPermutation(p)
  {
    && 0 <= start < |p| && 0 <= at < |p| && at !in visited
    && (forall x :: x in visited ==> 0 <= x < |p|)
    && (if visited == {} then at == start else start in visited)
    && (forall x :: x in visited ==> p[x] in visited || p[x] == at)
    && (forall x :: 0 <= x < |p| && p[x] in visited && p[x] != start ==> x in visited)
    && (at != start ==> forall x :: 0 <= x < |p| && p[x] == at ==> x in visited)
  }

  /** The walk stays on one cycle. */
  ghost predicate OneCycle(p: seq<int>, start: int, visited: set<int>, at: int)
    requires IsPermutation(p) && Walking(p, start, visited, at)
  {
    forall x :: x in visited + {at} ==> Reaches(p, start, x) && Reaches(p, x, at)
  }

  lemma WalkOn(p: seq<int>, start: int, visited: set<int>, at: int)
    requires IsPermutation(p) && Walking(p, start, visited, at) && p[at] != start
    ensures Walking(p, start, visited + {at}, p[at])
    ensures |visited + {at}| == |visited| + 1 <= |p|
  {
    WalkFits(p, start, visited, at);
    assert p[at] !in visited;
    assert p[at] != at;
  }

  lemma StayOnCycle(p: seq<int>, start: int, visited: set<int>, at: int)
    requires IsPermutation(p) && Walking(p, start, visited, at) && p[at] != start
    requires Walking(p, start, visited + {at}, p[at])
    requires OneCycle(p, start, visited, at)
    ensures OneCycle(p, start, visited + {at}, p[at])
  {
    forall x | x in visited + {at} + {p[at]}
      ensures Reaches(p, start, x) && Reaches(p, x, p[at])
    {
      if x == p[at] {
        ReachesNext(p, start, at);
        ReachesSelf(p, x);
      } else {
        ReachesNext(p, x, at);
      }
    }
  }

  lemma WalkContains(p: seq<int>, start: int, visited: set<int>, at: int, x: int, y: int)
    requires IsPermutation(p) && Walking(p, start, visited, at) && p[at] == start && x in visited + {at}
    requires Reaches(p, x, y)
    ensures y in visited + {at}
  {
    var k: nat :| Follow(p, x, k) == y;
    FollowStays(p, visited + {at}, x, k);
  }

  /** When the walk is about to return to its start it has covered the cycle of each of its positions. */
  lemma WalkReturns(p: seq<int>, start: int, visited: set<int>, at: int, x: int)
    requires IsPermutation(p) && Walking(p, start, visited, at) && OneCycle(p, start, visited, at)
    requires p[at] == start && x in visited + {at}
    ensures Cycle(p, x) == visited + {at}
  {
    var w := visited + {at};
    ReachesNext(p, x, at);
    forall y | y in w
      ensures Reaches(p, x, y)
    {
      ReachesTransitive(p, x, start, y);
    }
    forall y | y in Cycle(p, x)
      ensures y in w
    {
      WalkContains(p, start, visited, at, x, y);
    }
  }

  /** The positions 0..n-1. */
  ghost function Positions(n: nat): (r: set<int>)
    ensures forall x :: x in r <==> 0 <= x < n
    ensures |r| == n
  {
    if n == 0 then {} else Positions(n - 1) + {n - 1}
  }

  lemma GrowSize<T>(a: set<T>, x: T)
    requires x !in a
    ensures |a + {x}| == |a| + 1
  {
  }

  lemma SubsetSize<T>(a: set<T>, b: set<T>)
    requires a <= b
    ensures |a| <= |b|
  {
    assert b == a + (b - a);
  }

  lemma WalkFits(p: seq<int>, start: int, visited: set<int>, at: int)
    requires IsPermutation(p) && Walking(p, start, visited, at)
    ensures |visited| < |p|
  {
    SubsetSize(visited + {at}, Positions(|p|));
  }

  /** The values while a cycle is resolved: `visited` is done, and `at` holds what belongs at the cycle's end. */
  ghost predicate Resolving<T>(p: seq<int>, before: seq<T>, now: seq<T>, visited: set<int>, at: int, start: int)
    requires IsPermutation(p) && Walking(p, start, visited, at) && |p| <= |before|
  {
    && |now| == |before|
    && forall x :: 0 <= x < |now| ==> now[x] == before[if x in visited then p[x] else if x == at then start else x]
  }

  ghost predicate Marked(before: seq<bool>, now: seq<bool>, visited: set<int>) {
    && |now| == |before|
    && forall x :: 0 <= x < |now| ==> now[x] == (before[x] || x in visited)
  }

  lemma ResolvingStep<T>(p: seq<int>, before: seq<T>, now: seq<T>, visited: set<int>, at: int, start: int)
    requires IsPermutation(p) && Walking(p, start, visited, at) && |p| <= |before|
    requires Resolving(p, before, now, visited, at, start) && p[at] != start
    ensures Walking(p, start, visited + {at}, p[at])
    ensures Resolving(p, before, now[at := now[p[at]]][p[at] := now[at]], visited + {at}, p[at], start)
  {
    WalkOn(p, start, visited, at);
  }

  lemma MarkedStep(before: seq<bool>, now: seq<bool>, visited: set<int>, x: int)
    requires Marked(before, now, visited) && 0 <= x < |now|
    ensures Marked(before, now[x := true], visited + {x})
  {
  }

  method Swap<T>(a: array<T>, i: int, j: int)
    requires 0 <= i < a.Length && 0 <= j < a.Length
    modifies a
    ensures a[..] == old(a[..])[i := old(a[j])][j := old(a[i])]
    ensures multiset(a[..]) == multiset(old(a[..]))
  {
    a[i], a[j] := a[j], a[i];
  }

  method Mark(a: array<bool>, i: int)
    requires 0 <= i < a.Length
    modifies a
    ensures a[..] == old(a[..])[i := true]
  {
    a[i] := true;
  }

  /** The inner loop: shift every element of the cycle through `start` into place and mark it. */
  method ResolveCycle<T>(p: seq<int>, values: array<T>, sorted: array<bool>, start: int)
      returns (ghost visited: set<int>, ghost last: int)
    requires IsPermutation(p) && |p| <= values.Length && sorted.Length == |p| && 0 <= start < |p|
    requires values as object != sorted
    modifies values, sorted
    ensures Walking(p, start, visited, last) && OneCycle(p, start, visited, last) && p[last] == start
    ensures Marked(old(sorted[..]), sorted[..], visited + {last})
    ensures Resolving(p, old(values[..]), values[..], visited, last, start)
    ensures multiset(values[..]) == multiset(old(values[..]))
  {
    var sortInto := start;
    visited := {};
    ReachesSelf(p, start);
    var end := sortInto;
    var takeFrom := p[sortInto];
    ghost var before, unmarked := values[..], sorted[..];
    while takeFrom != end
      invariant Walking(p, start, visited, sortInto) && OneCycle(p, start, visited, sortInto)
      invariant takeFrom == p[sortInto]
      invariant Marked(unmarked, sorted[..], visited)
      invariant Resolving(p, before, values[..], visited, sortInto, start)
      invariant multiset(values[..]) == multiset(before)
      decreases |p| - |visited|
    {
      WalkOn(p, start, visited, sortInto);
      StayOnCycle(p, start, visited, sortInto);
      ResolvingStep(p, before, values[..], visited, sortInto, start);
      MarkedStep(unmarked, sorted[..], visited, sortInto);
      Swap(values, sortInto, takeFrom);
      Mark(sorted, sortInto);
      visited := visited + {sortInto};
      sortInto := takeFrom;
      takeFrom := p[sortInto];
    }
    MarkedStep(unmarked, sorted[..], visited, sortInto);
    Mark(sorted, sortInto);
    last := sortInto;
  }

  // ---- All cycles ----

  /** `m` holds of a position exactly when it holds of the next one: it marks a union of whole cycles. */
  ghost predicate WholeCycles(p: seq<int>, m: seq<bool>)
    requires IsPermutation(p)
  {
    |m| == |p| && forall i :: 0 <= i < |p| ==> m[i] == m[p[i]]
  }

  lemma {:induction false} MarkFollows(p: seq<int>, m: seq<bool>, i: int, k: nat)
    requires IsPermutation(p) && WholeCycles(p, m) && 0 <= i < |p|
    ensures m[Follow(p, i, k)] == m[i]
  {
    if k > 0 {
      MarkFollows(p, m, i, k - 1);
    }
  }

  /** Marks that respect cycles agree on a whole cycle. */
  lemma MarkIsUniform(p: seq<int>, m: seq<bool>, i: int, j: int)
    requires IsPermutation(p) && WholeCycles(p, m) && 0 <= i < |p| && j in Cycle(p, i)
    ensures m[j] == m[i]
  {
    var k: nat :| Follow(p, i, k) == j;
    MarkFollows(p, m, i, k);
  }

  /** The cycles through the marked positions. */
  ghost function MarkedCycles(p: seq<int>, m: seq<bool>): set<set<int>>
    requires IsPermutation(p) && |m| == |p|
  {
    set i | 0 <= i < |p| && m[i] :: Cycle(p, i)
  }

  /** Marking the cycle walked from the unmarked `start` marks whole cycles again. */
  lemma StillWholeCycles(p: seq<int>, m: seq<bool>, m': seq<bool>, start: int, visited: set<int>, last: int)
    requires IsPermutation(p) && WholeCycles(p, m)
    requires Walking(p, start, visited, last) && p[last] == start && Marked(m, m', visited + {last})
    ensures WholeCycles(p, m')
  {
    forall x | 0 <= x < |p|
      ensures m'[x] == m'[p[x]]
    {
    }
  }

  /** The marks grow by exactly one cycle, which was not marked before. */
  lemma OneMoreCycle(p: seq<int>, m: seq<bool>, m': seq<bool>, start: int, visited: set<int>, last: int)
    requires IsPermutation(p) && WholeCycles(p, m) && 0 <= start < |p| && !m[start]
    requires Walking(p, start, visited, last) && OneCycle(p, start, visited, last) && p[last] == start
    requires Marked(m, m', visited + {last})
    ensures Cycle(p, start) !in MarkedCycles(p, m)
    ensures MarkedCycles(p, m') == MarkedCycles(p, m) + {Cycle(p, start)}
  {
    var c := Cycle(p, start);
    forall x | x in visited + {last}
      ensures Cycle(p, x) == c
    {
      WalkReturns(p, start, visited, last, x);
      WalkReturns(p, start, visited, last, start);
    }
    if c in MarkedCycles(p, m) {
      var i :| 0 <= i < |p| && m[i] && Cycle(p, i) == c;
      ReachesSelf(p, start);
      MarkIsUniform(p, m, i, start);
    }
    assert m'[start];
  }

  /** What `permute` has achieved when it has marked `m`. */
  ghost predicate Permuting<T>(p: seq<int>, before: seq<T>, now: seq<T>, m: seq<bool>)
    requires IsPermutation(p) && |p| <= |before|
  {
    && WholeCycles(p, m)
    && |now| == |before|
    && forall x :: 0 <= x < |now| ==> now[x] == before[if x < |p| && m[x] then p[x] else x]
  }

  lemma WalkUnmarked(p: seq<int>, m: seq<bool>, start: int, visited: set<int>, last: int, x: int)
    requires IsPermutation(p) && WholeCycles(p, m)
    requires Walking(p, start, visited, last) && OneCycle(p, start, visited, last)
    requires !m[start] && x in visited + {last}
    ensures !m[x] && !m[p[x]]
  {
    MarkIsUniform(p, m, start, x);
  }

  /** The value at one position after a cycle has been resolved, given that the cycle was unmarked. */
  lemma ValueInPlace<T>(p: seq<int>, before: seq<T>, now: seq<T>, now': seq<T>, m: seq<bool>, m': seq<bool>,
                        walked: set<int>, x: int)
    requires IsPermutation(p) && |p| <= |before| && Permuting(p, before, now, m) && 0 <= x < |now| == |now'|
    requires Marked(m, m', walked)
    requires now'[x] == now[if x in walked && x < |p| then p[x] else x]
    requires x in walked ==> x < |p| && !m[x] && !m[p[x]]
    ensures now'[x] == before[if x < |p| && m'[x] then p[x] else x]
  {
  }

  lemma PermutingStep<T>(p: seq<int>, before: seq<T>, now: seq<T>, now': seq<T>, m: seq<bool>, m': seq<bool>,
                         start: int, visited: set<int>, last: int)
    requires IsPermutation(p) && |p| <= |before| && Permuting(p, before, now, m)
    requires Walking(p, start, visited, last) && p[last] == start
    requires forall x :: x in visited + {last} ==> !m[x] && !m[p[x]]
    requires Marked(m, m', visited + {last}) && Resolving(p, now, now', visited, last, start)
    ensures Permuting(p, before, now', m')
  {
    StillWholeCycles(p, m, m', start, visited, last);
    forall x | 0 <= x < |now|
      ensures now'[x] == before[if x < |p| && m'[x] then p[x] else x]
    {
      ValueInPlace(p, before, now, now', m, m', visited + {last}, x);
    }
  }

  /** The starts recorded so far are the least positions of the marked cycles. */
  ghost predicate LeastMarked(p: seq<int>, m: seq<bool>, starts: set<int>)
    requires IsPermutation(p) && |m| == |p|
  {
    forall i {:trigger i in starts} :: i in starts <==> 0 <= i < |p| && m[i] && IsLeast(p, i)
  }

  lemma LeastStep(p: seq<int>, m: seq<bool>, m': seq<bool>, starts: set<int>, start: int, c: set<int>)
    requires IsPermutation(p) && |m| == |p| && LeastMarked(p, m, starts) && start in c
    requires forall x :: x in c ==> 0 <= x < |p| && Cycle(p, x) == c && !m[x]
    requires Marked(m, m', c)
    requires forall x :: 0 <= x < start ==> m[x]
    ensures LeastMarked(p, m', starts + {start})
  {
  }

  /** The invariant of the outer loop. */
  ghost predicate Progress<T>(p: seq<int>, before: seq<T>, now: seq<T>, m: seq<bool>, count: nat, starts: set<int>)
    requires IsPermutation(p) && |p| <= |before|
  {
    && Permuting(p, before, now, m)
    && count == |MarkedCycles(p, m)| == |starts|
    && LeastMarked(p, m, starts)
  }

  /** One iteration of the outer loop, on values. */
  lemma ProgressStep<T>(p: seq<int>, before: seq<T>, now: seq<T>, now': seq<T>, m: seq<bool>, m': seq<bool>,
                        count: nat, starts: set<int>, start: int, visited: set<int>, last: int)
    requires IsPermutation(p) && |p| <= |before| && Progress(p, before, now, m, count, starts)
    requires Walking(p, start, visited, last) && OneCycle(p, start, visited, last) && p[last] == start && !m[start]
    requires Marked(m, m', visited + {last}) && Resolving(p, now, now', visited, last, start)
    requires forall x :: 0 <= x < start ==> m[x]
    ensures Progress(p, before, now', m', count + 1, starts + {start})
  {
    assert Permuting(p, before, now', m') by {
      forall x | x in visited + {last}
        ensures !m[x] && !m[p[x]]
      {
        WalkUnmarked(p, m, start, visited, last, x);
      }
      PermutingStep(p, before, now, now', m, m', start, visited, last);
    }
    assert LeastMarked(p, m', starts + {start}) by {
      forall x | x in visited + {last}
        ensures Cycle(p, x) == visited + {last} && !m[x]
      {
        WalkReturns(p, start, visited, last, x);
        WalkUnmarked(p, m, start, visited, last, x);
      }
      LeastStep(p, m, m', starts, start, visited + {last});
    }
    assert |MarkedCycles(p, m')| == |MarkedCycles(p, m)| + 1 by {
      OneMoreCycle(p, m, m', start, visited, last);
    }
    GrowSize(starts, start);
  }

  /** The outer loop begins with nothing marked. */
  lemma ProgressStart<T>(p: seq<int>, before: seq<T>, m: seq<bool>)
    requires IsPermutation(p) && |p| <= |before| && m == seq(|p|, _ => false)
    ensures Progress(p, before, before, m, 0, {})
  {
  }

  /** Every position of `after` holds what `before` held at the position `p` names; the rest is untouched. */
  ghost predicate Gathered<T>(p: seq<int>, before: seq<T>, after: seq<T>)
    requires IsPermutation(p) && |p| <= |before|
  {
    && |after| == |before|
    && (forall i :: 0 <= i < |p| ==> after[i] == before[p[i]])
    && (forall i :: |p| <= i < |before| ==> after[i] == before[i])
  }

  /** What `permute` promises for a permutation `p`. */
  ghost predicate Permuted<T>(p: seq<int>, before: seq<T>, after: seq<T>, count: nat, starts: set<int>)
    requires IsPermutation(p) && |p| <= |before|
  {
    && Gathered(p, before, after)
    && count == |Cycles(p)| == |starts|
    && LeastMarked(p, seq(|p|, _ => true), starts)
  }

  /** The outer loop ends with everything marked. */
  lemma ProgressEnd<T>(p: seq<int>, before: seq<T>, now: seq<T>, m: seq<bool>, count: nat, starts: set<int>)
    requires IsPermutation(p) && |p| <= |before| && Progress(p, before, now, m, count, starts)
    requires forall x :: 0 <= x < |p| ==> m[x]
    ensures Permuted(p, before, now, count, starts)
  {
    assert m == seq(|p|, _ => true);
    assert MarkedCycles(p, m) == Cycles(p);
  }

  /** The early return: a permutation of at most one position has one cycle per position. */
  lemma ShortPermutation<T>(p: seq<int>, values: seq<T>)
    requires |p| <= 1 && IsPermutation(p) && |p| <= |values|
    ensures Permuted(p, values, values, |p|, Positions(|p|))
  {
    if |p| == 1 {
      assert Cycles(p) == {Cycle(p, 0)};
    } else {
      assert Cycles(p) == {};
    }
  }

  /** `std::find` for the first false at or after `from`. */
  method FindFalse(a: array<bool>, from: nat) returns (i: nat)
    requires from <= a.Length
    ensures from <= i <= a.Length
    ensures forall j :: from <= j < i ==> a[j]
    ensures i < a.Length ==> !a[i]
  {
    i := from;
    while i < a.Length && a[i]
      invariant from <= i <= a.Length
      invariant forall j :: from <= j < i ==> a[j]
    {
      i := i + 1;
    }
  }

  /** The invariant of the outer loop when it is about to resolve the cycle at `at`. */
  ghost predicate AtCycle<T>(p: seq<int>, before: seq<T>, now: seq<T>, m: seq<bool>,
                             count: nat, starts: set<int>, at: int)
    requires IsPermutation(p) && |p| <= |before|
  {
    && Progress(p, before, now, m, count, starts)
    && 0 <= at <= |p|
    && (forall j :: 0 <= j < at ==> m[j])
    && (at < |p| ==> !m[at])
  }

  /** The body and the increment of the outer loop. */
  method NextCycle<T>(indices: seq<int>, values: array<T>, sorted: array<bool>, cycleStart: nat,
                      ghost before: seq<T>, ghost count: nat, ghost starts: set<int>) returns (next: nat)
    requires IsPermutation(indices) && |indices| <= |before| && values as object != sorted
    requires AtCycle(indices, before, values[..], sorted[..], count, starts, cycleStart) && cycleStart < |indices|
    modifies values, sorted
    ensures AtCycle(indices, before, values[..], sorted[..], count + 1, starts + {cycleStart}, next)
    ensures next > cycleStart
    ensures multiset(values[..]) == multiset(old(values[..]))
  {
    ghost var m, now, visited, last := sorted[..], values[..], {}, cycleStart;
    if indices[cycleStart] == cycleStart {
      ReachesSelf(indices, cycleStart);
      MarkedStep(m, m, {}, cycleStart);
      Mark(sorted, cycleStart);
    } else {
      visited, last := ResolveCycle(indices, values, sorted, cycleStart);
    }
    ProgressStep(indices, before, now, values[..], m, sorted[..], count, starts, cycleStart, visited, last);
    assert sorted[..][cycleStart];
    next := FindFalse(sorted, cycleStart);
  }

  /** The part of `permute` that follows cycles. */
  method PermuteCycles<T>(indices: seq<int>, values: array<T>) returns (cycleCount: nat, ghost starts: set<int>)
    requires IsPermutation(indices) && |indices| <= values.Length && |indices| > 0
    modifies values
    ensures Permuted(indices, old(values[..]), values[..], cycleCount, starts)
    ensures multiset(values[..]) == multiset(old(values[..]))
  {
    ghost var before := values[..];
    var sorted := new bool[|indices|](_ => false);
    cycleCount, starts := 0, {};
    ProgressStart(indices, before, sorted[..]);
    var cycleStart := 0;
    while cycleStart != |indices|
      invariant AtCycle(indices, before, values[..], sorted[..], cycleCount, starts, cycleStart)
      invariant multiset(values[..]) == multiset(before)
      decreases |indices| - cycleStart
    {
      var next := NextCycle(indices, values, sorted, cycleStart, before, cycleCount, starts);
      cycleCount, starts, cycleStart := cycleCount + 1, starts + {cycleStart}, next;
    }
    ProgressEnd(indices, before, values[..], sorted[..], cycleCount, starts);
  }

  /**
   `permute`: afterwards values[i] is the old values[indices[i]], and the result is
   the number of cycles of `indices`. `starts`, the positions at which the outer
   loop began a cycle, are the least positions of the cycles.
   */
  method Permute<T>(indices: seq<int>, values: array<T>) returns (cycleCount: nat, ghost starts: set<int>)
    requires |indices| > 1 ==> IsPermutation(indices) && |indices| <= values.Length
    modifies values
    ensures |indices| <= 1 ==> values[..] == old(values[..]) && cycleCount == |indices|
    ensures IsPermutation(indices) && |indices| <= values.Length ==>
      Permuted(indices, old(values[..]), values[..], cycleCount, starts)
    ensures multiset(values[..]) == multiset(old(values[..]))
  {
    if |indices| <= 1 {
      cycleCount, starts := |indices|, Positions(|indices|);
      if IsPermutation(indices) && |indices| <= values.Length {
        ShortPermutation(indices, values[..]);
      }
    } else {
      cycleCount, starts := PermuteCycles(indices, values);
    }
  }

  // ---- arg_sort ----

  ghost predicate Incomparable<T>(less: (T, T) -> bool, x: T, y: T) {
    !less(x, y) && !less(y, x)
  }

  /** What `std::sort` asks of its comparison. */
  ghost predicate StrictWeakOrder<T(!new)>(less: (T, T) -> bool) {
    && (forall x :: !less(x, x))
    && (forall x, y, z :: less(x, y) && less(y, z) ==> less(x, z))
    && (forall x, y, z :: Incomparable(less, x, y) && Incomparable(less, y, z) ==> Incomparable(less, x, z))
  }

  /** No element is less than an earlier one. */
  ghost predicate SortedBy<T>(less: (T, T) -> bool, s: seq<T>) {
    forall i, j :: 0 <= i < j < |s| ==> !less(s[j], s[i])
  }

  lemma NotLessIsTransitive<T(!new)>(less: (T, T) -> bool, x: T, y: T, z: T)
    requires StrictWeakOrder(less) && !less(y, x) && !less(z, y)
    ensures !less(z, x)
  {
    if less(z, x) {
      assert !less(x, y) ==> Incomparable(less, x, y);
      assert !less(y, z) ==> Incomparable(less, y, z);
    }
  }

  /** The values that `indices` select, in order. */
  ghost function Select<T>(values: seq<T>, indices: seq<int>): (r: seq<T>)
    requires forall i :: 0 <= i < |indices| ==> 0 <= indices[i] < |values|
    ensures |r| == |indices|
  {
    seq(|indices|, i requires 0 <= i < |indices| => values[indices[i]])
  }

  /** `indices` is an order of the first `k` positions that sorts their values. */
  ghost predicate SortsPrefix<T>(less: (T, T) -> bool, values: seq<T>, indices: seq<int>, k: nat) {
    && |indices| == k <= |values|
    && IsPermutation(indices)
    && SortedBy(less, Select(values, indices))
  }

  /** Inserting `v` before the first element it is less than keeps a sequence sorted. */
  lemma InsertKeepsSorted<T(!new)>(less: (T, T) -> bool, s: seq<T>, v: T, pos: nat)
    requires StrictWeakOrder(less) && SortedBy(less, s) && pos <= |s|
    requires forall i :: 0 <= i < pos ==> !less(v, s[i])
    requires pos < |s| ==> less(v, s[pos])
    ensures SortedBy(less, s[..pos] + [v] + s[pos..])
  {
    forall i | pos <= i < |s|
      ensures !less(s[i], v)
    {
      if pos < i {
        assert !less(s[i], s[pos]);
        NotLessIsTransitive(less, v, s[pos], s[i]);
      }
    }
    var s' := s[..pos] + [v] + s[pos..];
    forall i, j | 0 <= i < j < |s'|
      ensures !less(s'[j], s'[i])
    {
    }
  }

  lemma InsertKeepsPermutation(indices: seq<int>, pos: nat)
    requires IsPermutation(indices) && pos <= |indices|
    ensures IsPermutation(indices[..pos] + [|indices|] + indices[pos..])
  {
    var p := indices[..pos] + [|indices|] + indices[pos..];
    forall i, j | 0 <= i < j < |p|
      ensures p[i] != p[j]
    {
    }
  }

  lemma InsertStep<T(!new)>(less: (T, T) -> bool, values: seq<T>, indices: seq<int>, k: nat, pos: nat)
    requires StrictWeakOrder(less) && k < |values| && SortsPrefix(less, values, indices, k) && pos <= k
    requires forall i :: 0 <= i < pos ==> !less(values[k], values[indices[i]])
    requires pos < k ==> less(values[k], values[indices[pos]])
    ensures SortsPrefix(less, values, indices[..pos] + [k] + indices[pos..], k + 1)
  {
    var s := Select(values, indices);
    InsertKeepsPermutation(indices, pos);
    InsertKeepsSorted(less, s, values[k], pos);
    assert Select(values, indices[..pos] + [k] + indices[pos..]) == s[..pos] + [values[k]] + s[pos..];
  }

  /**
   `arg_sort`: an order of the positions that sorts the values. `std::sort` is
   represented by insertion; its callers use only that it sorts.
   */
  method ArgSort<T(!new)>(values: seq<T>, less: (T, T) -> bool) returns (indices: seq<int>)
    requires StrictWeakOrder(less)
    ensures |indices| == |values| && IsPermutation(indices) && SortedBy(less, Select(values, indices))
  {
    indices := [];
    for k := 0 to |values|
      invariant SortsPrefix(less, values, indices, k)
    {
      var pos := 0;
      while pos < k && !less(values[k], values[indices[pos]])
        invariant 0 <= pos <= k
        invariant forall i :: 0 <= i < pos ==> !less(values[k], values[indices[i]])
      {
        pos := pos + 1;
      }
      InsertStep(less, values, indices, k, pos);
      indices := indices[..pos] + [k] + indices[pos..];
    }
  }

  /** `permute` with the result of `arg_sort` sorts any vector and keeps its values. */
  method SortByPermuting<T(!new)>(values: array<T>, less: (T, T) -> bool)
    requires StrictWeakOrder(less)
    modifies values
    ensures SortedBy(less, values[..])
    ensures multiset(values[..]) == multiset(old(values[..]))
  {
    ghost var before := values[..];
    var indices := ArgSort(values[..], less);
    var count, starts := Permute(indices, values);
    assert values[..] == Select(before, indices);
  }
}
