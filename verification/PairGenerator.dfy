/**
 Model of `Sequential<std::pair<T, U>>`
 (benchmark/container/raw_hash_set_probe_benchmark.cc): a generator that combines two
 streams into a stream of pairs, walking the diagonals of the quarter plane and
 drawing from each underlying stream only what it needs.
 */
module PairGenerator {

  /** The cursor after the cursor (t, u). */
  function Step(t: nat, u: nat): (nat, nat) {
    if t == 0 then (u + 1, 0) else (t - 1, u + 1)
  }

  /** The cursor after `k` calls. */
  function Position(k: nat): (nat, nat) {
    if k == 0 then (0, 0) else var (t, u) := Position(k - 1); Step(t, u)
  }

  function Triangle(n: nat): nat {
    if n == 0 then 0 else Triangle(n - 1) + n
  }

  lemma {:induction false} TriangleFormula(n: nat)
    ensures 2 * Triangle(n) == n * (n + 1)
  {
    if n > 0 {
      TriangleFormula(n - 1);
    }
  }

  /** The number of the call that meets the cursor (t, u). */
  function Rank(t: nat, u: nat): nat {
    Triangle(t + u) + u
  }

  /** The closed form of `Rank`. */
  lemma RankFormula(t: nat, u: nat)
    ensures Rank(t, u) == (t + u) * (t + u + 1) / 2 + u
  {
    TriangleFormula(t + u);
  }

  lemma {:induction false} RankOfPosition(k: nat)
    ensures Rank(Position(k).0, Position(k).1) == k
  {
    if k > 0 {
      RankOfPosition(k - 1);
      var (t, u) := Position(k - 1);
      if t == 0 {
        assert Triangle(u + 1) == Triangle(u) + u + 1;
      }
    }
  }

  lemma {:induction false} TriangleGrows(a: nat, b: nat)
    requires a < b
    ensures Triangle(a) + a < Triangle(b)
  {
    if a + 1 < b {
      TriangleGrows(a, b - 1);
    }
  }

  lemma RankIsInjective(t: nat, u: nat, t': nat, u': nat)
    requires Rank(t, u) == Rank(t', u')
    ensures t == t' && u == u'
  {
    if t + u < t' + u' {
      TriangleGrows(t + u, t' + u');
    } else if t' + u' < t + u {
      TriangleGrows(t' + u', t + u);
    }
  }

  lemma PositionOfRank(t: nat, u: nat)
    ensures Position(Rank(t, u)) == (t, u)
  {
    var p := Position(Rank(t, u));
    RankOfPosition(Rank(t, u));
    RankIsInjective(p.0, p.1, t, u);
  }

  /** Every pair of stream positions is met by exactly one call. */
  lemma EveryPairOnce(t: nat, u: nat)
    ensures Position(Rank(t, u)) == (t, u)
    ensures forall k :: Position(k) == (t, u) ==> k == Rank(t, u)
  {
    PositionOfRank(t, u);
    forall k | Position(k) == (t, u)
      ensures k == Rank(t, u)
    {
      RankOfPosition(k);
    }
  }

  /** After n*(n+1)/2 calls exactly the pairs below the n-th diagonal have been met. */
  lemma DiagonalsInOrder(n: nat, k: nat)
    ensures k < Triangle(n) <==> Position(k).0 + Position(k).1 < n
  {
    RankOfPosition(k);
    var s := Position(k).0 + Position(k).1;
    if s < n {
      TriangleGrows(s, n);
    } else if n < s {
      TriangleGrows(n, s);
    }
  }

  class SequentialPair<T, U> {
    // The underlying streams: the value of their k-th call.
    const tStream: nat -> T
    const uStream: nat -> U

    // How many values have been drawn from each.
    var tDrawn: nat
    var uDrawn: nat

    var ts: seq<T>
    var us: seq<U>
    var ti: nat
    var ui: nat

    ghost var calls: nat

    /** The caches agree with the streams, and the cursor with the number of calls. */
    ghost predicate Valid()
      reads this
    {
      && |ts| == tDrawn && (forall i :: 0 <= i < |ts| ==> ts[i] == tStream(i))
      && |us| == uDrawn && (forall i :: 0 <= i < |us| ==> us[i] == uStream(i))
      && (ti, ui) == Position(calls)
    }

    /** The pair that call number `k` should yield. */
    function PairAt(k: nat): (T, U) {
      (tStream(Position(k).0), uStream(Position(k).1))
    }

    constructor (tStream: nat -> T, uStream: nat -> U)
      ensures Valid() && calls == 0 && this.tStream == tStream && this.uStream == uStream
    {
      this.tStream, this.uStream := tStream, uStream;
      tDrawn, uDrawn, ts, us, ti, ui := 0, 0, [], [], 0, 0;
      calls := 0;
    }

    method GetT() returns (t: T)
      requires Valid()
      modifies this`ts, this`tDrawn
      ensures Valid() && t == tStream(ti)
      ensures tDrawn == if old(tDrawn) > ti then old(tDrawn) else ti + 1
    {
      while ti >= |ts|
        invariant Valid() && old(tDrawn) <= tDrawn
        invariant tDrawn > old(tDrawn) ==> tDrawn <= ti + 1
        decreases ti - |ts|
      {
        ts := ts + [tStream(tDrawn)];
        tDrawn := tDrawn + 1;
      }
      t := ts[ti];
    }

    method GetU() returns (u: U)
      requires Valid()
      modifies this`us, this`uDrawn
      ensures Valid() && u == uStream(ui)
      ensures uDrawn == if old(uDrawn) > ui then old(uDrawn) else ui + 1
    {
      while ui >= |us|
        invariant Valid() && old(uDrawn) <= uDrawn
        invariant uDrawn > old(uDrawn) ==> uDrawn <= ui + 1
        decreases ui - |us|
      {
        us := us + [uStream(uDrawn)];
        uDrawn := uDrawn + 1;
      }
      u := us[ui];
    }

    /** The call operator: call number k yields the stream values at the k-th position. */
    method Next() returns (value: (T, U))
      requires Valid()
      modifies this
      ensures Valid() && calls == old(calls) + 1
      ensures value == PairAt(old(calls))
      ensures tDrawn == if old(tDrawn) > old(ti) then old(tDrawn) else old(ti) + 1
      ensures uDrawn == if old(uDrawn) > old(ui) then old(uDrawn) else old(ui) + 1
    {
      var t := GetT();
      var u := GetU();
      value := (t, u);
      if ti == 0 {
        ti := ui + 1;
        ui := 0;
      } else {
        ti := ti - 1;
        ui := ui + 1;
      }
      calls := calls + 1;
    }

    /** Any number of calls in a row: together they yield the streams' pairs in diagonal order. */
    method Take(n: nat) returns (values: seq<(T, U)>)
      requires Valid() && calls == 0
      modifies this
      ensures Valid() && calls == n && |values| == n
      ensures forall t, u :: Rank(t, u) < n ==> values[Rank(t, u)] == (tStream(t), uStream(u))
    {
      values := [];
      for k := 0 to n
        invariant Valid() && calls == k == |values|
        invariant forall j :: 0 <= j < k ==> values[j] == PairAt(j)
      {
        var v := Next();
        values := values + [v];
      }
      forall t, u | Rank(t, u) < n
        ensures values[Rank(t, u)] == (tStream(t), uStream(u))
      {
        PositionOfRank(t, u);
        assert values[Rank(t, u)] == PairAt(Rank(t, u));
      }
    }
  }
}
