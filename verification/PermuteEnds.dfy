/**
 Which index vectors `permute` (turbo/algorithm/algorithm.h) can deal with. Its inner
 loop ends when the walk along the indices comes back to where it began.
 */
module PermuteEnds {
  import opened Permute

  predicate InRange(p: seq<int>) {
    forall i :: 0 <= i < |p| ==> 0 <= p[i] < |p|
  }

  /** Where the walk from `i` is after `k` steps. */
  ghost function Walked(p: seq<int>, i: int, k: nat): (r: int)
    requires InRange(p) && 0 <= i < |p|
    ensures 0 <= r < |p|
  {
    if k == 0 then i else p[Walked(p, i, k - 1)]
  }

  ghost predicate Returns(p: seq<int>, i: int)
    requires InRange(p) && 0 <= i < |p|
  {
    exists k: nat :: k > 0 && Walked(p, i, k) == i
  }

  // ---- Counting ----

  ghost function Elements(s: seq<int>): set<int> {
    set x | x in s
  }

  lemma {:induction false} ElementsSize(s: seq<int>)
    ensures |Elements(s)| <= |s|
  {
    if s != [] {
      ElementsSize(s[1..]);
      assert Elements(s) == Elements(s[1..]) + {s[0]};
    }
  }

  /** With a repeated element there are fewer different ones. */
  lemma RepeatShrinks(s: seq<int>, a: nat, b: nat)
    requires a < b < |s| && s[a] == s[b]
    ensures |Elements(s)| < |s|
  {
    var rest := s[..b] + s[b + 1..];
    ElementsSize(rest);
    forall x | x in s
      ensures x in rest
    {
      var i :| 0 <= i < |s| && s[i] == x;
      assert if i < b then rest[i] == x else if i == b then rest[a] == x else rest[i - 1] == x;
    }
    SubsetSize(Elements(s), Elements(rest));
  }

  lemma {:induction false} DistinctSize(s: seq<int>)
    requires forall i, j :: 0 <= i < j < |s| ==> s[i] != s[j]
    ensures |Elements(s)| == |s|
  {
    if s != [] {
      DistinctSize(s[1..]);
      assert Elements(s) == Elements(s[1..]) + {s[0]};
    }
  }

  /** Two of more than `n` numbers below `n` are equal. */
  lemma Pigeonhole(s: seq<int>, n: nat) returns (a: nat, b: nat)
    requires |s| > n && forall i :: 0 <= i < |s| ==> 0 <= s[i] < n
    ensures a < b < |s| && s[a] == s[b]
  {
    if forall i, j :: 0 <= i < j < |s| ==> s[i] != s[j] {
      DistinctSize(s);
      SubsetSize(Elements(s), Positions(n));
      assert false;
    } else {
      a, b :| 0 <= a < b < |s| && s[a] == s[b];
    }
  }

  // ---- Permutations and nothing else ----

  /** Walks of a permutation that meet have met before. */
  lemma {:induction false} WalksMeet(p: seq<int>, i: int, a: nat, b: nat)
    requires IsPermutation(p) && 0 <= i < |p| && a <= b && Walked(p, i, a) == Walked(p, i, b)
    ensures Walked(p, i, b - a) == i
    decreases a
  {
    if a > 0 {
      WalksMeet(p, i, a - 1, b - 1);
    }
  }

  lemma PermutationReturns(p: seq<int>, i: int)
    requires IsPermutation(p) && 0 <= i < |p|
    ensures Returns(p, i)
  {
    var walk := seq(|p| + 1, k requires k >= 0 => Walked(p, i, k));
    var a, b := Pigeonhole(walk, |p|);
    WalksMeet(p, i, a, b);
  }

  lemma ReturningIsReached(p: seq<int>, i: int)
    requires InRange(p) && 0 <= i < |p| && Returns(p, i)
    ensures i in p
  {
    var k: nat :| k > 0 && Walked(p, i, k) == i;
    assert p[Walked(p, i, k - 1)] == i;
  }

  /** If every walk returns, every position is an index, and so none is there twice. */
  lemma ReturningIsPermutation(p: seq<int>, a: nat, b: nat)
    requires InRange(p) && (forall i :: 0 <= i < |p| ==> Returns(p, i)) && a < b < |p|
    ensures p[a] != p[b]
  {
    forall i | 0 <= i < |p|
      ensures i in p
    {
      ReturningIsReached(p, i);
    }
    SubsetSize(Positions(|p|), Elements(p));
    if p[a] == p[b] {
      RepeatShrinks(p, a, b);
    }
  }

  /** Every walk of the inner loop comes to its end if and only if the indices are a permutation. */
  lemma WalksEndIffPermutation(p: seq<int>)
    requires InRange(p)
    ensures (forall i :: 0 <= i < |p| ==> Returns(p, i)) <==> IsPermutation(p)
  {
    if IsPermutation(p) {
      forall i | 0 <= i < |p|
        ensures Returns(p, i)
      {
        PermutationReturns(p, i);
      }
    } else if forall i :: 0 <= i < |p| ==> Returns(p, i) {
      forall a: nat, b: nat | a < b < |p|
        ensures p[a] != p[b]
      {
        ReturningIsPermutation(p, a, b);
      }
    }
  }

  /** The vector [1, 1]: the walk from 0 never comes back. */
  lemma {:induction false} RepeatedIndexNeverReturns(k: nat)
    requires k > 0
    ensures Walked([1, 1], 0, k) == 1
  {
    assert [1, 1][0] == 1 && [1, 1][1] == 1;
    if k > 1 {
      RepeatedIndexNeverReturns(k - 1);
    }
  }

  // ---- The whole loop ----

  /**
   Where `permute` stands in its two loops: it has begun a cycle at `start`, is about to
   fill position `at`, and has marked `m`.
   */
  datatype Loop = Done | Filling(start: nat, at: nat, m: seq<bool>)

  /** The first false in `m` at or after `i`, or the length of `m`. */
  function FirstFalse(m: seq<bool>, i: nat): (r: nat)
    requires i <= |m|
    ensures i <= r <= |m| && (r < |m| ==> !m[r])
    ensures forall j :: i <= j < r ==> m[j]
    decreases |m| - i
  {
    if i == |m| || !m[i] then i else FirstFalse(m, i + 1)
  }

  /** The increment of the outer loop. */
  function Begin(m: seq<bool>, i: nat): Loop
    requires i <= |m|
  {
    var r := FirstFalse(m, i);
    if r == |m| then Done else Filling(r, r, m)
  }

  predicate Fits(p: seq<int>, l: Loop) {
    l.Filling? ==> l.start < |p| && l.at < |p| && |l.m| == |p|
  }

  /** Position `at` is filled and marked; the walk goes on to the next one unless that is its start. */
  function Fill(p: seq<int>, l: Loop): (r: Loop)
    requires InRange(p) && Fits(p, l) && l.Filling?
    ensures Fits(p, r)
  {
    var m := l.m[l.at := true];
    if p[l.at] == l.start then Begin(m, l.start) else Filling(l.start, p[l.at], m)
  }

  ghost predicate EndsIn(p: seq<int>, l: Loop, n: nat)
    requires InRange(p) && Fits(p, l)
    decreases n
  {
    l.Done? || (n > 0 && EndsIn(p, Fill(p, l), n - 1))
  }

  function Unmarked(p: seq<int>): seq<bool> {
    seq(|p|, _ => false)
  }

  /** `permute` with these indices comes to its end. */
  ghost predicate Ends(p: seq<int>)
    requires InRange(p)
  {
    exists n: nat :: EndsIn(p, Begin(Unmarked(p), 0), n)
  }

  // ---- It ends only on permutations ----

  lemma {:induction false} WalkedAdds(p: seq<int>, i: int, j: nat, k: nat)
    requires InRange(p) && 0 <= i < |p|
    ensures Walked(p, Walked(p, i, j), k) == Walked(p, i, j + k)
    decreases k
  {
    if k > 0 {
      WalkedAdds(p, i, j, k - 1);
    }
  }

  /** Every position on a walk that returns, returns. */
  lemma OnReturningWalk(p: seq<int>, i: int, j: nat, k: nat)
    requires InRange(p) && 0 <= i < |p| && j < k && Walked(p, i, k) == i
    ensures Returns(p, Walked(p, i, j))
  {
    var x := Walked(p, i, j);
    WalkedAdds(p, i, j, k - j);
    WalkedAdds(p, x, k - j, j);
    assert Walked(p, x, k) == x;
  }

  /** The position is on a walk that returns, or among the first `k` of the walk under way. */
  ghost predicate Explained(p: seq<int>, start: nat, k: nat, x: nat)
    requires InRange(p) && start < |p| && x < |p|
  {
    Returns(p, x) || exists j: nat :: j < k && Walked(p, start, j) == x
  }

  /** What is marked is explained, and the walk under way has come from `start` to `at` in `k` steps. */
  ghost predicate Sound(p: seq<int>, l: Loop, k: nat)
    requires InRange(p)
  {
    && l.Filling? && Fits(p, l) && Walked(p, l.start, k) == l.at
    && (forall x :: 0 <= x < l.start ==> l.m[x])
    && (forall x :: 0 <= x < |p| && l.m[x] ==> Explained(p, l.start, k, x))
  }

  lemma StillExplained(p: seq<int>, l: Loop, k: nat, x: nat)
    requires InRange(p) && Sound(p, l, k) && x < |p| && l.m[l.at := true][x]
    ensures Explained(p, l.start, k + 1, x)
  {
    if x == l.at {
      assert k < k + 1 && Walked(p, l.start, k) == x;
    } else {
      assert Explained(p, l.start, k, x);
    }
  }

  lemma MarkedReturns(p: seq<int>, l: Loop, k: nat, x: nat)
    requires InRange(p) && Sound(p, l, k) && p[l.at] == l.start && x < |p| && l.m[l.at := true][x]
    ensures Returns(p, x)
  {
    StillExplained(p, l, k, x);
    if !Returns(p, x) {
      var j: nat :| j < k + 1 && Walked(p, l.start, j) == x;
      OnReturningWalk(p, l.start, j, k + 1);
    }
  }

  /** A loop that ends has marked everything, so every walk returns. */
  lemma {:induction false} EndingReturns(p: seq<int>, l: Loop, k: nat, n: nat, x: nat)
    requires InRange(p) && Sound(p, l, k) && EndsIn(p, l, n) && x < |p|
    ensures Returns(p, x)
    decreases n
  {
    var m, l' := l.m[l.at := true], Fill(p, l);
    if p[l.at] == l.start {
      forall y | 0 <= y < |p| && m[y]
        ensures Returns(p, y)
      {
        MarkedReturns(p, l, k, y);
      }
      if l'.Filling? {
        assert Walked(p, l'.start, 0) == l'.at;
        EndingReturns(p, l', 0, n - 1, x);
      } else {
        assert m[x];
      }
    } else {
      forall y | 0 <= y < |p| && m[y]
        ensures Explained(p, l.start, k + 1, y)
      {
        StillExplained(p, l, k, y);
      }
      EndingReturns(p, l', k + 1, n - 1, x);
    }
  }

  // ---- It ends on permutations ----

  function Open(m: seq<bool>): nat {
    if m == [] then 0 else (if m[0] then 0 else 1) + Open(m[1..])
  }

  lemma {:induction false} MarkingCloses(m: seq<bool>, i: nat)
    requires i < |m|
    ensures Open(m[i := true]) == Open(m) - if m[i] then 0 else 1
  {
    if i > 0 {
      assert m[i := true][1..] == m[1..][i - 1 := true];
      MarkingCloses(m[1..], i - 1);
    } else {
      assert m[0 := true][1..] == m[1..];
    }
  }

  /**
   The walk under way has made `k` of the `full` steps that bring it back. It began with
   `open` positions unmarked, among them its start, which it marks at once.
   */
  lemma {:induction false} LoopEnds(p: seq<int>, l: Loop, k: nat, full: nat, open: nat) returns (n: nat)
    requires IsPermutation(p) && l.Filling? && Fits(p, l)
    requires k < full && Walked(p, l.start, k) == l.at && Walked(p, l.start, full) == l.start
    requires if k == 0 then Open(l.m) == open && !l.m[l.start] else Open(l.m) < open
    ensures EndsIn(p, l, n)
    decreases open, full - k
  {
    var m, l' := l.m[l.at := true], Fill(p, l);
    MarkingCloses(l.m, l.at);
    n := 0;
    if p[l.at] != l.start {
      assert Walked(p, l.start, k + 1) == l'.at;
      n := LoopEnds(p, l', k + 1, full, open);
    } else if l'.Filling? {
      PermutationReturns(p, l'.start);
      var full': nat :| full' > 0 && Walked(p, l'.start, full') == l'.start;
      n := LoopEnds(p, l', 0, full', Open(m));
    }
    n := n + 1;
  }

  /** For indices within range, `permute` comes to its end if and only if they are a permutation. */
  lemma EndsIffPermutation(p: seq<int>)
    requires InRange(p) && p != []
    ensures Ends(p) <==> IsPermutation(p)
  {
    var l := Begin(Unmarked(p), 0);
    assert l == Filling(0, 0, Unmarked(p)) && Walked(p, 0, 0) == 0;
    if IsPermutation(p) {
      PermutationReturns(p, 0);
      var full: nat :| full > 0 && Walked(p, 0, full) == 0;
      var n := LoopEnds(p, l, 0, full, Open(l.m));
    } else if Ends(p) {
      var n: nat :| EndsIn(p, l, n);
      forall x | 0 <= x < |p|
        ensures Returns(p, x)
      {
        EndingReturns(p, l, 0, n, x);
      }
      WalksEndIffPermutation(p);
    }
  }
}
