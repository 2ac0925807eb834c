/**
 Model of the fallback branch of `c_sample` (turbo/algorithm/container.h): selection
 sampling of `n` elements out of a container. The random generator is the stream of
 its draws; the i-th draw ranges over the elements not yet passed.
 */
module Sample {

  /** A full-length stream of draws for `u` elements. */
  predicate IsStream(u: nat, draws: seq<nat>) {
    |draws| == u && forall i :: 0 <= i < u ==> draws[i] < u - i
  }

  /** Which elements the loop selects when `n` are still wanted. */
  function Chosen(n: nat, draws: seq<nat>): (flags: seq<bool>)
    ensures |flags| == |draws|
  {
    if draws == [] then []
    else if draws[0] < n then [true] + Chosen(n - 1, draws[1..])
    else [false] + Chosen(n, draws[1..])
  }

  function CountTrue(flags: seq<bool>): (k: nat)
    ensures k <= |flags|
  {
    if flags == [] then 0 else (if flags[0] then 1 else 0) + CountTrue(flags[1..])
  }

  /** The elements of `c` whose flag is set, in order. */
  function Pick<T>(c: seq<T>, flags: seq<bool>): (r: seq<T>)
    requires |c| == |flags|
    ensures |r| == CountTrue(flags)
  {
    if c == [] then [] else (if flags[0] then [c[0]] else []) + Pick(c[1..], flags[1..])
  }

  /** Each flagged element is in its place: behind as many as are flagged before it. */
  lemma {:induction false} PickInPlace<T>(c: seq<T>, flags: seq<bool>, i: nat)
    requires |c| == |flags| && i < |flags| && flags[i]
    ensures CountTrue(flags[..i]) < CountTrue(flags) && Pick(c, flags)[CountTrue(flags[..i])] == c[i]
    decreases |c|
  {
    if i > 0 {
      PickInPlace(c[1..], flags[1..], i - 1);
      assert flags[..i][1..] == flags[1..][..i - 1];
    }
  }

  /** An element is selected if and only if its draw is below the number of elements still wanted then. */
  lemma {:induction false} ChosenAt(n: nat, draws: seq<nat>, i: nat)
    requires i < |draws|
    ensures CountTrue(Chosen(n, draws)[..i]) <= n
    ensures Chosen(n, draws)[i] <==> draws[i] < n - CountTrue(Chosen(n, draws)[..i])
    decreases |draws|
  {
    if i > 0 {
      var m, flags := if draws[0] < n then n - 1 else n, Chosen(n, draws);
      ChosenAt(m, draws[1..], i - 1);
      assert flags[1..] == Chosen(m, draws[1..]) && flags[..i][1..] == flags[1..][..i - 1];
    }
  }

  /** `r` are the elements of `c` at the positions `at`, which ascend. */
  ghost predicate SelectedAt<T>(c: seq<T>, at: seq<nat>, r: seq<T>) {
    && |at| == |r|
    && (forall k :: 0 <= k < |at| ==> at[k] < |c| && r[k] == c[at[k]])
    && (forall j, k :: 0 <= j < k < |at| ==> at[j] < at[k])
  }

  /** The positions of the set flags. */
  function Positions(flags: seq<bool>, i: nat): seq<nat>
    requires i <= |flags|
    decreases |flags| - i
  {
    if i == |flags| then [] else (if flags[i] then [i] else []) + Positions(flags, i + 1)
  }

  lemma {:induction false} PickAtPositions<T>(c: seq<T>, flags: seq<bool>, i: nat, rest: seq<T>, later: seq<bool>)
    requires |c| == |flags| && i <= |c| && rest == c[i..] && later == flags[i..]
    ensures SelectedAt(c, Positions(flags, i), Pick(rest, later))
    ensures forall k :: 0 <= k < |Positions(flags, i)| ==> i <= Positions(flags, i)[k] && flags[Positions(flags, i)[k]]
    decreases |c| - i
  {
    if i < |c| {
      PickAtPositions(c, flags, i + 1, rest[1..], later[1..]);
    }
  }

  /** When all are flagged, all are picked. */
  lemma {:induction false} PickAll<T>(c: seq<T>, flags: seq<bool>)
    requires |c| == |flags| && CountTrue(flags) == |flags|
    ensures Pick(c, flags) == c
  {
    if c != [] {
      PickAll(c[1..], flags[1..]);
    }
  }

  lemma IsStreamTail(u: nat, draws: seq<nat>)
    requires u > 0 && IsStream(u, draws)
    ensures IsStream(u - 1, draws[1..])
  {
  }

  /** Exactly as many elements are selected as are wanted. */
  lemma {:induction false} ChosenCount(u: nat, n: nat, draws: seq<nat>)
    requires n <= u && IsStream(u, draws)
    ensures CountTrue(Chosen(n, draws)) == n
  {
    if u > 0 {
      IsStreamTail(u, draws);
      if draws[0] < n {
        ChosenCount(u - 1, n - 1, draws[1..]);
      } else {
        ChosenCount(u - 1, n, draws[1..]);
      }
    }
  }

  /** The elements that the draws from `i` on select, when `n` are still wanted. */
  function Picked<T>(c: seq<T>, draws: seq<nat>, i: nat, n: nat): seq<T>
    requires |c| == |draws| && i <= |c|
    decreases |c| - i
  {
    if i == |c| then []
    else if draws[i] < n then [c[i]] + Picked(c, draws, i + 1, n - 1)
    else Picked(c, draws, i + 1, n)
  }

  lemma {:induction false} PickedIsPick<T>(c: seq<T>, draws: seq<nat>, i: nat, n: nat, rest: seq<T>, later: seq<nat>)
    requires |c| == |draws| && i <= |c| && rest == c[i..] && later == draws[i..]
    ensures Picked(c, draws, i, n) == Pick(rest, Chosen(n, later))
    decreases |c| - i
  {
    if i < |c| {
      PickedIsPick(c, draws, i + 1, if draws[i] < n then n - 1 else n, rest[1..], later[1..]);
    }
  }

  /** When nothing is wanted any more, nothing is selected. */
  lemma {:induction false} NonePicked<T>(c: seq<T>, draws: seq<nat>, i: nat)
    requires |c| == |draws| && i <= |c|
    ensures Picked(c, draws, i, 0) == []
    decreases |c| - i
  {
    if i < |c| {
      NonePicked(c, draws, i + 1);
    }
  }

  lemma OneMore<T>(s: seq<T>, x: T, rest: seq<T>)
    ensures s + ([x] + rest) == (s + [x]) + rest
  {
  }

  function Min(a: nat, b: nat): nat {
    if a < b then a else b
  }

  /** What `c_sample` puts out for a stream of draws. */
  function Sampled<T>(c: seq<T>, n: nat, draws: seq<nat>): seq<T>
    requires |c| == |draws|
  {
    Pick(c, Chosen(Min(n, |c|), draws))
  }

  /** The positions that are selected. */
  lemma SampledAt<T>(c: seq<T>, n: nat, draws: seq<nat>, result: seq<T>) returns (at: seq<nat>)
    requires IsStream(|c|, draws) && result == Sampled(c, n, draws)
    ensures SelectedAt(c, at, result) && |result| == Min(n, |c|)
    ensures n >= |c| ==> result == c
  {
    var flags := Chosen(Min(n, |c|), draws);
    ChosenCount(|c|, Min(n, |c|), draws);
    PickAtPositions(c, flags, 0, c, flags);
    at := Positions(flags, 0);
    if n >= |c| {
      PickAll(c, flags);
    }
  }

  /** The fallback loop of `c_sample`: it reads no element past the end and keeps the order of the container. */
  method CSample<T>(c: seq<T>, n: nat, draws: seq<nat>) returns (result: seq<T>, ghost at: seq<nat>)
    requires IsStream(|c|, draws)
    ensures result == Sampled(c, n, draws) && |result| == Min(n, |c|)
    ensures SelectedAt(c, at, result)
    ensures n >= |c| ==> result == c
  {
    var first := 0;
    var unsampled := |c|;
    var wanted := Min(n, unsampled);
    result := [];
    PickedIsPick(c, draws, 0, wanted, c, draws);
    ghost var goal := Picked(c, draws, 0, wanted);
    while wanted != 0
      invariant first + unsampled == |c| && 0 <= wanted <= unsampled
      invariant result + Picked(c, draws, first, wanted) == goal
      decreases unsampled
    {
      unsampled := unsampled - 1;
      var r := draws[first];
      assert r <= unsampled;
      if r < wanted {
        OneMore(result, c[first], Picked(c, draws, first + 1, wanted - 1));
        result := result + [c[first]];
        wanted := wanted - 1;
      }
      first := first + 1;
    }
    NonePicked(c, draws, first);
    at := SampledAt(c, n, draws, result);
  }

  // ---- Uniformity ----

  /** The product of `a` and `b`, as repeated addition. */
  function Times(a: nat, b: nat): nat {
    if a == 0 then 0 else b + Times(a - 1, b)
  }

  lemma {:induction false} TimesIsProduct(a: nat, b: nat)
    ensures Times(a, b) == a * b
  {
    if a > 0 {
      TimesIsProduct(a - 1, b);
    }
  }

  lemma {:induction false} TimesDistributes(a: nat, b: nat, c: nat)
    ensures Times(a + b, c) == Times(a, c) + Times(b, c)
  {
    if a > 0 {
      TimesDistributes(a - 1, b, c);
    }
  }

  lemma {:induction false} TimesAssociates(a: nat, b: nat, c: nat)
    ensures Times(a, Times(b, c)) == Times(Times(a, b), c)
  {
    if a > 0 {
      TimesAssociates(a - 1, b, c);
      TimesDistributes(b, Times(a - 1, b), c);
    }
  }

  lemma TimesCommutes(a: nat, b: nat)
    ensures Times(a, b) == Times(b, a)
  {
    TimesIsProduct(a, b);
    TimesIsProduct(b, a);
  }

  lemma Regroup(a: nat, b: nat, c: nat)
    ensures Times(a, Times(b, c)) == Times(Times(a, b), c)
    ensures Times(a, Times(c, b)) == Times(c, Times(a, b))
  {
    TimesAssociates(a, b, c);
    TimesCommutes(b, c);
    TimesCommutes(c, Times(a, b));
  }

  function Factorial(n: nat): nat {
    if n == 0 then 1 else Times(n, Factorial(n - 1))
  }

  /** The streams of `tails`, each with `r` before it. */
  ghost function Prepend(r: nat, tails: set<seq<nat>>): set<seq<nat>> {
    set d | d in tails :: [r] + d
  }

  lemma {:induction false} PrependSize(r: nat, tails: set<seq<nat>>)
    ensures |Prepend(r, tails)| == |tails|
    decreases |tails|
  {
    if tails != {} {
      var d :| d in tails;
      var rest := tails - {d};
      PrependSize(r, rest);
      assert Prepend(r, tails) == Prepend(r, rest) + {[r] + d};
      assert [r] + d !in Prepend(r, rest) by {
        forall e | e in rest
          ensures [r] + e != [r] + d
        {
          assert ([r] + e)[1..] == e && ([r] + d)[1..] == d;
        }
      }
    }
  }

  lemma PrependHas(r: nat, tails: set<seq<nat>>, s: seq<nat>)
    ensures s in Prepend(r, tails) <==> |s| > 0 && s[0] == r && s[1..] in tails
  {
    if |s| > 0 {
      assert s == [s[0]] + s[1..];
    }
    if s in Prepend(r, tails) {
      var d :| d in tails && s == [r] + d;
      assert s[1..] == d;
    }
  }

  /** The streams that begin with a draw in lo..hi-1 and continue as in `tails`. */
  ghost function Prefixed(lo: nat, hi: nat, tails: set<seq<nat>>): set<seq<nat>>
    requires lo <= hi
    decreases hi
  {
    if lo == hi then {} else Prefixed(lo, hi - 1, tails) + Prepend(hi - 1, tails)
  }

  lemma {:induction false} PrefixedHas(lo: nat, hi: nat, tails: set<seq<nat>>, s: seq<nat>)
    requires lo <= hi
    ensures s in Prefixed(lo, hi, tails) <==> |s| > 0 && lo <= s[0] < hi && s[1..] in tails
    decreases hi
  {
    if lo < hi {
      PrefixedHas(lo, hi - 1, tails, s);
      PrependHas(hi - 1, tails, s);
    }
  }

  lemma DisjointSize<T>(a: set<T>, b: set<T>)
    requires a !! b
    ensures |a + b| == |a| + |b|
  {
  }

  lemma PrefixedApart(lo: nat, hi: nat, tails: set<seq<nat>>)
    requires lo <= hi
    ensures Prefixed(lo, hi, tails) !! Prepend(hi, tails)
  {
    forall s | s in Prefixed(lo, hi, tails)
      ensures s !in Prepend(hi, tails)
    {
      PrefixedHas(lo, hi, tails, s);
      PrependHas(hi, tails, s);
    }
  }

  lemma {:induction false} SizeOfPrefixed(lo: nat, hi: nat, tails: set<seq<nat>>, all: set<seq<nat>>)
    requires lo <= hi && all == Prefixed(lo, hi, tails)
    ensures |all| == Times(hi - lo, |tails|)
    decreases hi
  {
    if lo < hi {
      var a, b := Prefixed(lo, hi - 1, tails), Prepend(hi - 1, tails);
      SizeOfPrefixed(lo, hi - 1, tails, a);
      PrependSize(hi - 1, tails);
      PrefixedApart(lo, hi - 1, tails);
      DisjointSize(a, b);
    }
  }

  lemma PrefixedSize(lo: nat, hi: nat, tails: set<seq<nat>>)
    requires lo <= hi
    ensures |Prefixed(lo, hi, tails)| == Times(hi - lo, |tails|)
  {
    SizeOfPrefixed(lo, hi, tails, Prefixed(lo, hi, tails));
  }

  /** All full-length streams for `u` elements. */
  ghost function Streams(u: nat): set<seq<nat>> {
    if u == 0 then {[]} else Prefixed(0, u, Streams(u - 1))
  }

  lemma {:induction false} StreamsHas(u: nat, d: seq<nat>)
    ensures d in Streams(u) <==> IsStream(u, d)
  {
    if u > 0 {
      PrefixedHas(0, u, Streams(u - 1), d);
      if |d| > 0 {
        StreamsHas(u - 1, d[1..]);
        assert forall i :: 0 < i < |d| ==> d[i] == d[1..][i - 1];
      }
    }
  }

  lemma {:induction false} StreamCount(u: nat)
    ensures |Streams(u)| == Factorial(u)
  {
    if u > 0 {
      StreamCount(u - 1);
      PrefixedSize(0, u, Streams(u - 1));
    }
  }

  /** The streams that select exactly the elements flagged in `target`. */
  ghost function Selecting(n: nat, target: seq<bool>): set<seq<nat>> {
    set d | d in Streams(|target|) && Chosen(n, d) == target
  }

  /** The first draw is free within the range that agrees with the first flag; the rest selects the rest. */
  lemma SelectingSplits(n: nat, target: seq<bool>)
    requires |target| > 0 && CountTrue(target) == n
    ensures target[0] ==> n > 0 && Selecting(n, target) == Prefixed(0, n, Selecting(n - 1, target[1..]))
    ensures !target[0] ==> Selecting(n, target) == Prefixed(n, |target|, Selecting(n, target[1..]))
  {
    var u := |target|;
    var rest := if target[0] then Selecting(n - 1, target[1..]) else Selecting(n, target[1..]);
    var lo, hi := if target[0] then 0 else n, if target[0] then n else u;
    forall d: seq<nat>
      ensures d in Selecting(n, target) <==> d in Prefixed(lo, hi, rest)
    {
      PrefixedHas(lo, hi, rest, d);
      PrefixedHas(0, u, Streams(u - 1), d);
      if |d| > 0 {
        var tail := if d[0] < n then Chosen(n - 1, d[1..]) else Chosen(n, d[1..]);
        assert Chosen(n, d) == [d[0] < n] + tail;
        assert target == [target[0]] + target[1..];
        assert Chosen(n, d) == target <==> (d[0] < n) == target[0] && tail == target[1..];
      }
    }
  }

  lemma NothingToSelect()
    ensures |Selecting(0, [])| == 1
  {
    assert Selecting(0, []) == {[]};
  }

  /** There are as many ways to go on as ways to select the rest, for each first draw that agrees. */
  lemma SelectingCount(n: nat, target: seq<bool>)
    requires |target| > 0 && CountTrue(target) == n
    ensures target[0] ==> n > 0 && |Selecting(n, target)| == Times(n, |Selecting(n - 1, target[1..])|)
    ensures !target[0] ==> |Selecting(n, target)| == Times(|target| - n, |Selecting(n, target[1..])|)
  {
    SelectingSplits(n, target);
    if target[0] {
      PrefixedSize(0, n, Selecting(n - 1, target[1..]));
    } else {
      PrefixedSize(n, |target|, Selecting(n, target[1..]));
    }
  }

  lemma {:induction false} SelectingSize(n: nat, target: seq<bool>)
    requires CountTrue(target) == n
    ensures |Selecting(n, target)| == Times(Factorial(n), Factorial(|target| - n))
    decreases |target|
  {
    if target == [] {
      NothingToSelect();
    } else {
      var u := |target|;
      SelectingCount(n, target);
      if target[0] {
        SelectingSize(n - 1, target[1..]);
        Regroup(n, Factorial(n - 1), Factorial(u - n));
      } else {
        SelectingSize(n, target[1..]);
        Regroup(u - n, Factorial(u - n - 1), Factorial(n));
      }
    }
  }

  /**
   Uniformity: every set of n out of N elements is selected by exactly n! * (N - n)!
   of the N! streams.
   */
  lemma EverySubsetEquallyLikely(n: nat, target: seq<bool>)
    requires CountTrue(target) == n
    ensures |Selecting(n, target)| == Factorial(n) * Factorial(|target| - n)
    ensures |Streams(|target|)| == Factorial(|target|)
    ensures forall d :: d in Streams(|target|) <==> IsStream(|target|, d)
  {
    StreamCount(|target|);
    forall d: seq<nat>
      ensures d in Streams(|target|) <==> IsStream(|target|, d)
    {
      StreamsHas(|target|, d);
    }
    SelectingSize(n, target);
    TimesIsProduct(Factorial(n), Factorial(|target| - n));
  }

  ghost predicate AllDifferent<T>(c: seq<T>) {
    forall i, j :: 0 <= i < j < |c| ==> c[i] != c[j]
  }

  lemma {:induction false} PickedIsThere<T>(c: seq<T>, flags: seq<bool>)
    requires |c| == |flags|
    ensures forall x :: x in Pick(c, flags) ==> x in c
  {
    if c != [] {
      PickedIsThere(c[1..], flags[1..]);
    }
  }

  /** Of different elements, different selections are different. */
  lemma {:induction false} PickIsInjective<T>(c: seq<T>, f: seq<bool>, g: seq<bool>)
    requires |c| == |f| == |g| && AllDifferent(c) && Pick(c, f) == Pick(c, g)
    ensures f == g
    decreases |c|
  {
    if c != [] {
      var p, q := Pick(c[1..], f[1..]), Pick(c[1..], g[1..]);
      PickedIsThere(c[1..], f[1..]);
      PickedIsThere(c[1..], g[1..]);
      assert c[0] !in c[1..];
      assert (f[0] ==> Pick(c, f) == [c[0]] + p) && (g[0] ==> Pick(c, g) == [c[0]] + q);
      assert (!f[0] ==> Pick(c, f) == p) && (!g[0] ==> Pick(c, g) == q);
      assert f[0] ==> Pick(c, f)[0] == c[0] && Pick(c, f)[1..] == p;
      assert g[0] ==> Pick(c, g)[0] == c[0] && Pick(c, g)[1..] == q;
      PickIsInjective(c[1..], f[1..], g[1..]);
      assert f == [f[0]] + f[1..] && g == [g[0]] + g[1..];
    }
  }

  /**
   Uniformity of what `c_sample` puts out: from different elements, every selection of n
   of them, in their order, comes out for exactly n! * (N - n)! of the N! streams.
   */
  lemma EverySampleEquallyLikely<T>(c: seq<T>, n: nat, target: seq<bool>)
    requires AllDifferent(c) && |c| == |target| && CountTrue(target) == n
    ensures var ds := set d | d in Streams(|c|) && |d| == |c| && Sampled(c, n, d) == Pick(c, target);
      |ds| == Factorial(n) * Factorial(|c| - n)
  {
    var ds := set d | d in Streams(|c|) && |d| == |c| && Sampled(c, n, d) == Pick(c, target);
    forall d: seq<nat>
      ensures d in ds <==> d in Selecting(n, target)
    {
      StreamsHas(|c|, d);
      if |d| == |c| && Sampled(c, n, d) == Pick(c, target) {
        PickIsInjective(c, Chosen(n, d), target);
      }
    }
    assert ds == Selecting(n, target);
    EverySubsetEquallyLikely(n, target);
  }
}
