/**
 Model of the constructor of `SyntheticBinary` (benchmark/log/vlog_config_benchmark.cc):
 it links log sites into a ring, shuffles the ring by cutting it into three pieces
 and rejoining them in another order, and finally cuts it open into a list. An array
 of the sites is kept in step with the links.
 */
module LogSiteRing {

  class VLogSite {
    var next: VLogSite?
    const file: nat

    constructor (file: nat)
      ensures this.file == file && next == null
    {
      this.file := file;
      next := null;
    }
  }

  ghost predicate Distinct<T>(s: seq<T>) {
    forall i, j :: 0 <= i < j < |s| ==> s[i] != s[j]
  }

  /** The position after `i` in a ring of `n`. */
  function After(i: nat, n: nat): nat
    requires i < n
  {
    if i + 1 == n then 0 else i + 1
  }

  ghost predicate LinkedBy(s: seq<VLogSite>, i: nat, j: nat)
    reads s
    requires i < |s| && j < |s|
  {
    s[i].next == s[j]
  }

  /** Following `next` leads through `s` in order and from its end back to its start. */
  ghost predicate Ring(s: seq<VLogSite>)
    reads s
  {
    |s| > 0 && Distinct(s) && forall i :: 0 <= i < |s| ==> LinkedBy(s, i, After(i, |s|))
  }

  /** Following `next` leads through `s` in order and ends there. */
  ghost predicate Chain(s: seq<VLogSite>)
    reads s
  {
    && |s| > 0 && Distinct(s)
    && (forall i :: 0 <= i < |s| - 1 ==> s[i].next == s[i + 1])
    && s[|s| - 1].next == null
  }

  // ---- The cuts ----

  /** Exclusive or of two unsigned numbers, bit by bit. */
  function Xor(a: nat, b: nat): nat
    decreases a + b
  {
    if a == 0 then b else if b == 0 then a
    else 2 * Xor(a / 2, b / 2) + (if a % 2 == b % 2 then 0 else 1)
  }

  lemma XorBits(a: nat, b: nat)
    ensures Xor(a, b) / 2 == Xor(a / 2, b / 2)
    ensures Xor(a, b) % 2 == if a % 2 == b % 2 then 0 else 1
  {
  }

  lemma {:induction false} XorCommutes(a: nat, b: nat)
    ensures Xor(a, b) == Xor(b, a)
    decreases a + b
  {
    if a > 0 && b > 0 {
      XorCommutes(a / 2, b / 2);
    }
  }

  lemma {:induction false} XorAssociates(a: nat, b: nat, c: nat)
    ensures Xor(Xor(a, b), c) == Xor(a, Xor(b, c))
    decreases a + b + c
  {
    if a > 0 && b > 0 && c > 0 {
      XorAssociates(a / 2, b / 2, c / 2);
      XorBits(a, b);
      XorBits(b, c);
      XorBits(Xor(a, b), c);
      XorBits(a, Xor(b, c));
    }
  }

  lemma {:induction false} XorCancels(a: nat, b: nat)
    ensures Xor(a, a) == 0 && Xor(a, Xor(a, b)) == b
    decreases a
  {
    if a > 0 {
      XorCancels(a / 2, 0);
    }
    XorAssociates(a, a, b);
  }

  /** Cancelling two of three numbers leaves the third. */
  lemma XorLeavesThird(a: nat, b: nat, c: nat)
    ensures Xor(Xor(Xor(Xor(a, b), c), a), b) == c
    ensures Xor(Xor(Xor(Xor(a, b), c), b), a) == c
  {
    var ab := Xor(a, b);
    XorAssociates(Xor(ab, c), a, b);
    XorAssociates(Xor(ab, c), b, a);
    XorCommutes(b, a);
    XorCommutes(Xor(ab, c), ab);
    XorCancels(ab, c);
  }

  function Least(a: nat, b: nat): nat { if a < b then a else b }
  function Greatest(a: nat, b: nat): nat { if a < b then b else a }

  /** Three numbers in ascending order. */
  function Ascending(a: nat, b: nat, c: nat): (nat, nat, nat) {
    if a > b then Ascending3(b, a, c) else Ascending3(a, b, c)
  }

  function Ascending3(a: nat, b: nat, c: nat): (nat, nat, nat)
  {
    if c < a then (c, a, b) else if c < b then (a, c, b) else (a, b, c)
  }

  /** The cuts in ascending order, the middle one computed with exclusive or. */
  method SortCuts(a: nat, b: nat, c: nat) returns (cut1: nat, cut2: nat, cut3: nat)
    requires a != b && b != c && a != c
    ensures cut1 < cut2 < cut3
    ensures multiset{cut1, cut2, cut3} == multiset{a, b, c}
    ensures (cut1, cut2, cut3) == Ascending(a, b, c)
  {
    cut1 := Least(Least(a, b), c);
    cut3 := Greatest(Greatest(a, b), c);
    cut2 := Xor(Xor(Xor(Xor(a, b), c), cut1), cut3);
    XorLeavesThird(a, b, c);
    XorReorder(a, b, c);
    XorLeavesThird(a, c, b);
    XorLeavesThird(b, c, a);
  }

  /** The first three operands may be taken in any order. */
  lemma XorReorder(a: nat, b: nat, c: nat)
    ensures Xor(Xor(a, b), c) == Xor(Xor(a, c), b) == Xor(Xor(b, c), a)
  {
    XorAssociates(a, b, c);
    XorCommutes(b, c);
    XorAssociates(a, c, b);
    XorCommutes(a, Xor(b, c));
  }

  // ---- One shuffle ----

  /** `s` with the piece after `c1` and the piece after `c2` exchanged. */
  function Spliced<T>(s: seq<T>, c1: nat, c2: nat, c3: nat): (r: seq<T>)
    requires c1 < c2 < c3 < |s|
    ensures |r| == |s|
  {
    s[..c1 + 1] + s[c2 + 1..c3 + 1] + s[c1 + 1..c2 + 1] + s[c3 + 1..]
  }

  /**
   Where each site goes: the piece after `c1` moves behind the piece after `c2`, each in
   its own order, and all other sites stay.
   */
  lemma SplicedPlaces<T>(s: seq<T>, c1: nat, c2: nat, c3: nat, i: nat)
    requires c1 < c2 < c3 < |s| && i < |s|
    ensures var to := if c1 < i <= c2 then i + (c3 - c2) else if c2 < i <= c3 then i - (c2 - c1) else i;
      0 <= to < |s| && Spliced(s, c1, c2, c3)[to] == s[i]
  {
  }

  /** The position in the old order of what is at position `k` in the new one. */
  function Origin(k: nat, c1: nat, c2: nat, c3: nat): (r: nat)
    requires c1 < c2 < c3
  {
    if k <= c1 then k
    else if k <= c1 + c3 - c2 then k + c2 - c1
    else if k <= c3 then k + c2 - c3
    else k
  }

  lemma SplicedAt<T>(s: seq<T>, c1: nat, c2: nat, c3: nat, k: nat)
    requires c1 < c2 < c3 < |s| && k < |s|
    ensures Origin(k, c1, c2, c3) < |s| && Spliced(s, c1, c2, c3)[k] == s[Origin(k, c1, c2, c3)]
  {
  }

  /** A shuffle only reorders the sites. */
  lemma SplicedKeepsSites<T>(s: seq<T>, c1: nat, c2: nat, c3: nat)
    requires c1 < c2 < c3 < |s|
    ensures multiset(Spliced(s, c1, c2, c3)) == multiset(s)
  {
    var a, b, c, d := s[..c1 + 1], s[c1 + 1..c2 + 1], s[c2 + 1..c3 + 1], s[c3 + 1..];
    assert s == a + b + c + d;
    assert Spliced(s, c1, c2, c3) == a + c + b + d;
  }

  lemma SplicedIsDistinct<T>(s: seq<T>, c1: nat, c2: nat, c3: nat)
    requires c1 < c2 < c3 < |s| && Distinct(s)
    ensures Distinct(Spliced(s, c1, c2, c3))
  {
  }

  /** Where the link out of old position `i` leads, in old positions, once the three links are exchanged. */
  function Relinked(i: nat, c1: nat, c2: nat, c3: nat, n: nat): nat
    requires c1 < c2 < c3 < n && i < n
  {
    if i == c1 then After(c2, n) else if i == c2 then After(c3, n) else if i == c3 then After(c1, n) else After(i, n)
  }

  /** Exchanging the three links is what exchanging the two pieces calls for. */
  lemma RelinkedFollowsSplice(k: nat, c1: nat, c2: nat, c3: nat, n: nat)
    requires c1 < c2 < c3 < n && k < n
    ensures Origin(k, c1, c2, c3) < n
    ensures Relinked(Origin(k, c1, c2, c3), c1, c2, c3, n) == Origin(After(k, n), c1, c2, c3)
  {
  }

  /** The link surgery of a shuffle turns a ring in one order into a ring in the other. */
  method Relink(s: seq<VLogSite>, c1: nat, c2: nat, c3: nat)
    requires Ring(s) && c1 < c2 < c3 < |s|
    modifies s[c1], s[c2], s[c3]
    ensures Ring(Spliced(s, c1, c2, c3))
  {
    var n := |s|;
    assert LinkedBy(s, c1, After(c1, n)) && LinkedBy(s, c2, After(c2, n)) && LinkedBy(s, c3, After(c3, n));
    var tmp := s[c1].next;
    s[c1].next := s[c2].next;
    s[c2].next := s[c3].next;
    s[c3].next := tmp;
    forall i | 0 <= i < n
      ensures LinkedBy(s, i, Relinked(i, c1, c2, c3, n))
    {
      assert old(LinkedBy(s, i, After(i, n)));
    }
    var t := Spliced(s, c1, c2, c3);
    SplicedIsDistinct(s, c1, c2, c3);
    forall k | 0 <= k < n
      ensures LinkedBy(t, k, After(k, n))
    {
      SplicedAt(s, c1, c2, c3, k);
      SplicedAt(s, c1, c2, c3, After(k, n));
      RelinkedFollowsSplice(k, c1, c2, c3, n);
      assert LinkedBy(s, Origin(k, c1, c2, c3), Origin(After(k, n), c1, c2, c3));
    }
  }

  /** `memcpy` of pointers: append `piece`, a part of what `src` begins with, to the filled part of `dst`. */
  method Memcpy(dst: array<VLogSite>, to: nat, src: array<VLogSite>, from: nat, count: nat,
                ghost s: seq<VLogSite>, ghost piece: seq<VLogSite>)
    requires dst != src && to + count <= dst.Length && from + count <= |s| <= src.Length
    requires src[..|s|] == s && piece == s[from..from + count]
    modifies dst
    ensures dst[..to + count] == old(dst[..to]) + piece
    ensures src[..|s|] == s
  {
    for k := 0 to count
      invariant src[..|s|] == s
      invariant dst[..to + k] == old(dst[..to]) + piece[..k]
    {
      assert src[from + k] == src[..|s|][from + k] == piece[k];
      dst[to + k] := src[from + k];
      assert dst[..to + (k + 1)] == dst[..to + k] + [piece[k]];
    }
  }

  /** The four copies of a shuffle. */
  method CopyPieces(sites: array<VLogSite>, newSites: array<VLogSite>, n: nat, c1: nat, c2: nat, c3: nat)
    requires sites != newSites && c1 < c2 < c3 < n <= sites.Length && n <= newSites.Length
    modifies newSites
    ensures newSites[..n] == Spliced(old(sites[..n]), c1, c2, c3)
  {
    ghost var s := sites[..n];
    ghost var p0, p1, p2, p3 := s[..c1 + 1], s[c2 + 1..c3 + 1], s[c1 + 1..c2 + 1], s[c3 + 1..];
    var k1, k2, k3 := c1 + 1, c1 + 1 + c3 - c2, c3 + 1;
    Memcpy(newSites, 0, sites, 0, k1, s, p0);
    assert newSites[..k1] == p0;
    Memcpy(newSites, k1, sites, c2 + 1, c3 - c2, s, p1);
    assert newSites[..k2] == p0 + p1;
    Memcpy(newSites, k2, sites, c1 + 1, c2 - c1, s, p2);
    assert newSites[..k3] == p0 + p1 + p2;
    Memcpy(newSites, k3, sites, c3 + 1, n - c3 - 1, s, p3);
    assert newSites[..n] == p0 + p1 + p2 + p3;
  }

  datatype Cuts = Cuts(a: nat, b: nat, c: nat)

  predicate InRange(cuts: Cuts, n: nat) {
    cuts.a < n && cuts.b < n && cuts.c < n
  }

  /** What one round of the shuffle loop makes of the order `s`. */
  function Shuffled<T>(s: seq<T>, cuts: Cuts): (r: seq<T>)
    requires InRange(cuts, |s|)
    ensures |r| == |s|
  {
    if cuts.a == cuts.b || cuts.b == cuts.c || cuts.a == cuts.c then s
    else
      var (c1, c2, c3) := Ascending(cuts.a, cuts.b, cuts.c);
      Spliced(s, c1, c2, c3)
  }

  /** It does not matter in which order three different cuts are drawn; two equal ones change nothing. */
  lemma ShuffledByAnyOrder<T>(s: seq<T>, a: nat, b: nat, c: nat)
    requires a <= b <= c < |s|
    ensures var r := if a < b < c then Spliced(s, a, b, c) else s;
      && Shuffled(s, Cuts(a, b, c)) == Shuffled(s, Cuts(a, c, b)) == r
      && Shuffled(s, Cuts(b, a, c)) == Shuffled(s, Cuts(b, c, a)) == r
      && Shuffled(s, Cuts(c, a, b)) == Shuffled(s, Cuts(c, b, a)) == r
  {
  }

  /** Three sites and the cuts 0, 1, 2: the last two are exchanged. */
  lemma ThreeSitesShuffled<T>(x: T, y: T, z: T)
    ensures Shuffled([x, y, z], Cuts(0, 1, 2)) == [x, z, y]
  {
  }

  /** The body of the shuffle loop, once the cuts are sorted. */
  method ShuffleAt(sites: array<VLogSite>, newSites: array<VLogSite>, n: nat, c1: nat, c2: nat, c3: nat)
    requires sites != newSites && c1 < c2 < c3 < n <= sites.Length && n <= newSites.Length
    requires Ring(sites[..n])
    modifies newSites, sites[..n]
    ensures newSites[..n] == Spliced(old(sites[..n]), c1, c2, c3)
    ensures Ring(newSites[..n]) && multiset(newSites[..n]) == multiset(old(sites[..n]))
  {
    var s := sites[..n];
    ghost var t := Spliced(s, c1, c2, c3);
    Relink(s, c1, c2, c3);
    ghost var ring := Ring(t);
    CopyPieces(sites, newSites, n, c1, c2, c3);
    assert ring == Ring(t);
    SplicedKeepsSites(s, c1, c2, c3);
  }

  /** One round of the shuffle loop; `order` and `spare` are the two arrays after they have been swapped. */
  method Shuffle(sites: array<VLogSite>, newSites: array<VLogSite>, n: nat, cuts: Cuts)
      returns (order: array<VLogSite>, spare: array<VLogSite>)
    requires sites != newSites && n <= sites.Length && n <= newSites.Length
    requires InRange(cuts, n) && Ring(sites[..n])
    modifies newSites, sites[..n]
    ensures (order == sites && spare == newSites) || (order == newSites && spare == sites)
    ensures order[..n] == Shuffled(old(sites[..n]), cuts)
    ensures Ring(order[..n]) && multiset(order[..n]) == multiset(old(sites[..n]))
  {
    if cuts.a == cuts.b || cuts.b == cuts.c || cuts.a == cuts.c {
      return sites, newSites;
    }
    var c1, c2, c3 := SortCuts(cuts.a, cuts.b, cuts.c);
    InThree(c3, cuts.a, cuts.b, cuts.c, c1, c2);
    ShuffleAt(sites, newSites, n, c1, c2, c3);
    return newSites, sites;
  }

  lemma InThree(x: nat, a: nat, b: nat, c: nat, y: nat, z: nat)
    requires multiset{y, z, x} == multiset{a, b, c}
    ensures x == a || x == b || x == c
  {
  }

  // ---- The whole constructor ----

  predicate CutsInRange(cuts: seq<Cuts>, n: nat) {
    forall k :: 0 <= k < |cuts| ==> InRange(cuts[k], n)
  }

  /** The rounds of the shuffle loop, one after the other. */
  function ShuffledAll<T>(s: seq<T>, cuts: seq<Cuts>): (r: seq<T>)
    requires CutsInRange(cuts, |s|)
    ensures |r| == |s|
  {
    if cuts == [] then s else Shuffled(ShuffledAll(s, cuts[..|cuts| - 1]), cuts[|cuts| - 1])
  }

  /** The shuffle loop: any number of rounds with any cuts keep the ring and its sites. */
  method ShuffleAll(sites: array<VLogSite>, newSites: array<VLogSite>, n: nat, cuts: seq<Cuts>)
      returns (order: array<VLogSite>)
    requires sites != newSites && n <= sites.Length && n <= newSites.Length
    requires CutsInRange(cuts, n) && Ring(sites[..n])
    modifies sites, newSites, sites[..n]
    ensures n <= order.Length && (order == sites || order == newSites)
    ensures order[..n] == ShuffledAll(old(sites[..n]), cuts)
    ensures Ring(order[..n]) && multiset(order[..n]) == multiset(old(sites[..n]))
  {
    ghost var before := sites[..n];
    ghost var all := multiset(before);
    var spare := newSites;
    order := sites;
    for k := 0 to |cuts|
      invariant (order == sites && spare == newSites) || (order == newSites && spare == sites)
      invariant Ring(order[..n]) && multiset(order[..n]) == all
      invariant order[..n] == ShuffledAll(before, cuts[..k])
    {
      assert cuts[..k + 1][..k] == cuts[..k];
      forall i | 0 <= i < n
        ensures order[i] in before
      {
        assert order[i] in multiset(order[..n]);
      }
      order, spare := Shuffle(order, spare, n, cuts[k]);
    }
    assert cuts[..|cuts|] == cuts;
  }

  /** The final cut: the list from the first site is the first `count` sites of the ring. */
  method CutOpen(sites: array<VLogSite>, n: nat, count: nat)
    requires n <= sites.Length && 0 < count <= n && Ring(sites[..n])
    modifies sites[count - 1]
    ensures Chain(sites[..count])
  {
    ghost var s, t := sites[..n], sites[..count];
    forall i | 0 <= i < count - 1
      ensures t[i].next == t[i + 1] && t[i] != sites[count - 1]
    {
      assert LinkedBy(s, i, After(i, n)) && t[i] == s[i] && t[i + 1] == s[i + 1];
    }
    sites[count - 1].next := null;
  }

  /** Walking a list visits its sites in order and ends after the last. */
  method Walk(head: VLogSite, ghost s: seq<VLogSite>) returns (visited: seq<VLogSite>)
    requires Chain(s) && head == s[0]
    ensures visited == s
  {
    visited := [head];
    var site := head;
    while site.next != null
      invariant 0 < |visited| <= |s| && visited == s[..|visited|] && site == s[|visited| - 1]
      invariant site.next == if |visited| < |s| then s[|visited|] else null
      decreases |s| - |visited|
    {
      site := site.next;
      visited := visited + [site];
    }
  }

  function Sum(sizes: seq<nat>): nat {
    if sizes == [] then 0 else Sum(sizes[..|sizes| - 1]) + sizes[|sizes| - 1]
  }

  lemma {:induction false} SumAtLeastLength(sizes: seq<nat>)
    requires forall k :: 0 <= k < |sizes| ==> sizes[k] > 0
    ensures Sum(sizes) >= |sizes|
    ensures Sum(sizes) == |sizes| <==> forall k :: 0 <= k < |sizes| ==> sizes[k] == 1
  {
    if sizes != [] {
      SumAtLeastLength(sizes[..|sizes| - 1]);
    }
  }

  /** The file of each site. */
  ghost function FilesOf(s: seq<VLogSite>): (r: seq<nat>)
    ensures |r| == |s|
  {
    seq(|s|, i requires 0 <= i < |s| => s[i].file)
  }

  /** The file of each site when the files are laid out one after the other: `sizes[0]` of file 0, and so on. */
  ghost function FileList(sizes: seq<nat>): seq<nat> {
    if sizes == [] then []
    else FileList(sizes[..|sizes| - 1]) + seq(sizes[|sizes| - 1], _ => |sizes| - 1)
  }

  /** The sites of file `f` are those from the sum of the sizes before it on, as many as its size. */
  lemma {:induction false} FileListAt(sizes: seq<nat>, f: nat, k: nat)
    requires f < |sizes| && Sum(sizes[..f]) <= k < Sum(sizes[..f + 1])
    ensures |FileList(sizes)| == Sum(sizes) && k < Sum(sizes) && FileList(sizes)[k] == f
    decreases |sizes|
  {
    var n := |sizes| - 1;
    var before := sizes[..n];
    FileListLength(sizes);
    FileListLength(before);
    if f < n {
      assert before[..f] == sizes[..f] && before[..f + 1] == sizes[..f + 1];
      FileListAt(before, f, k);
    } else {
      assert sizes[..f] == before && sizes[..f + 1] == sizes;
    }
  }

  lemma {:induction false} FileListLength(sizes: seq<nat>)
    ensures |FileList(sizes)| == Sum(sizes)
  {
    if sizes != [] {
      FileListLength(sizes[..|sizes| - 1]);
    }
  }

  lemma TakeOut<T>(t: seq<T>, i: nat)
    requires i < |t|
    ensures multiset(t[..i] + t[i + 1..]) == multiset(t) - multiset{t[i]} && t[i] in multiset(t)
  {
    assert t == t[..i] + [t[i]] + t[i + 1..];
  }

  /** Reordering the sites reorders their files. */
  lemma {:induction false} FilesOfReordered(s: seq<VLogSite>, t: seq<VLogSite>)
    requires multiset(s) == multiset(t)
    ensures multiset(FilesOf(s)) == multiset(FilesOf(t))
  {
    if s == [] {
      assert |multiset(t)| == 0;
    } else {
      assert s[0] in multiset(t);
      var i :| 0 <= i < |t| && t[i] == s[0];
      TakeOut(s, 0);
      TakeOut(t, i);
      FilesOfReordered(s[..0] + s[1..], t[..i] + t[i + 1..]);
      PutBack(s, 0);
      PutBack(t, i);
    }
  }

  lemma PutBack(t: seq<VLogSite>, i: nat)
    requires i < |t|
    ensures multiset(FilesOf(t)) == multiset(FilesOf(t[..i] + t[i + 1..])) + multiset{t[i].file}
  {
    var f := FilesOf(t);
    assert FilesOf(t[..i] + t[i + 1..]) == f[..i] + f[i + 1..];
    TakeOut(f, i);
  }

  /** The first sites of the files laid out so far: the first at 0, then in ascending order below `n`. */
  ghost predicate Starts(starts: seq<nat>, n: nat) {
    && (forall k :: 0 <= k < |starts| ==> starts[k] < n)
    && (|starts| > 0 ==> starts[0] == 0)
    && (forall j, k :: 0 <= j < k < |starts| ==> starts[j] < starts[k])
  }

  ghost predicate Joined(sites: seq<VLogSite>, q: nat)
    reads sites
    requires 0 < q < |sites|
  {
    sites[q - 1].next == sites[q]
  }

  /** Every link is right except possibly those into the first site of a file. */
  ghost predicate LinkedWithinFiles(sites: seq<VLogSite>, starts: seq<nat>)
    reads sites
  {
    forall q :: 0 < q < |sites| && q !in starts ==> Joined(sites, q)
  }

  /** The sites of one file, appended to those already laid out; the last link is left dangling. */
  method AddFile(before: seq<VLogSite>, file: nat, size: nat, ghost starts: seq<nat>) returns (sites: seq<VLogSite>)
    requires size > 0 && Distinct(before) && LinkedWithinFiles(before, starts)
    ensures |sites| == |before| + size && before <= sites
    ensures forall k :: |before| <= k < |sites| ==> fresh(sites[k]) && sites[k].file == file
    ensures Distinct(sites) && LinkedWithinFiles(sites, starts + [|before|])
  {
    sites := before;
    ghost var n := |before|;
    for j := 0 to size
      invariant |sites| == n + j && before <= sites
      invariant forall k :: n <= k < |sites| ==> fresh(sites[k]) && sites[k].file == file
      invariant Distinct(sites) && LinkedWithinFiles(sites, starts + [n])
    {
      ghost var was := sites;
      var site := new VLogSite(file);
      if j > 0 {
        sites[|sites| - 1].next := site;
      }
      sites := sites + [site];
      forall q | 0 < q < |sites| && q !in starts + [n]
        ensures Joined(sites, q)
      {
        if q < |was| {
          assert Joined(was, q);
        } else {
          assert (starts + [n])[|starts|] == n;
        }
      }
    }
  }

  /** Lay out the sites of all files, each file linked within itself. */
  method LayOut(sizes: seq<nat>) returns (sites: seq<VLogSite>, starts: seq<nat>)
    requires forall k :: 0 <= k < |sizes| ==> sizes[k] > 0
    ensures |starts| == |sizes| && |sites| == Sum(sizes) && Starts(starts, |sites|)
    ensures Distinct(sites) && LinkedWithinFiles(sites, starts)
    ensures forall k :: 0 <= k < |sites| ==> fresh(sites[k])
    ensures FilesOf(sites) == FileList(sizes)
  {
    sites, starts := [], [];
    for i := 0 to |sizes|
      invariant |starts| == i && |sites| == Sum(sizes[..i]) && Starts(starts, |sites|)
      invariant forall k :: 0 <= k < |sites| ==> fresh(sites[k])
      invariant Distinct(sites) && LinkedWithinFiles(sites, starts)
      invariant FilesOf(sites) == FileList(sizes[..i])
    {
      assert sizes[..i + 1][..i] == sizes[..i];
      var first := |sites|;
      ghost var files := FilesOf(sites);
      sites := AddFile(sites, i, sizes[i], starts);
      assert FilesOf(sites) == files + seq(sizes[i], _ => i);
      starts := starts + [first];
    }
    assert sizes[..|sizes|] == sizes;
  }

  /** Link the files together into one ring. */
  method LinkFiles(sites: seq<VLogSite>, starts: seq<nat>)
    requires Starts(starts, |sites|) && |starts| > 0 && Distinct(sites) && LinkedWithinFiles(sites, starts)
    modifies sites
    ensures Ring(sites)
  {
    ghost var n := |sites|;
    for i := 0 to |starts|
      invariant forall q :: 0 < q < n && (q !in starts || q in starts[..if i < |starts| then i + 1 else i]) ==>
        Joined(sites, q)
      invariant i == |starts| ==> sites[n - 1].next == sites[0]
    {
      var back := if i + 1 == |starts| then |sites| - 1 else starts[i + 1] - 1;
      var front := if i + 1 == |starts| then starts[0] else starts[i + 1];
      sites[back].next := sites[front];
    }
    forall k | 0 <= k < n
      ensures LinkedBy(sites, k, After(k, n))
    {
      if k + 1 < n {
        assert Joined(sites, k + 1);
      }
    }
  }

  /** The sites of all files in one ring, and the array that holds them in its order. */
  method BuildRing(sizes: seq<nat>) returns (sites: array<VLogSite>)
    requires |sizes| > 0 && forall k :: 0 <= k < |sizes| ==> sizes[k] > 0
    ensures sites.Length == Sum(sizes) && Ring(sites[..]) && FilesOf(sites[..]) == FileList(sizes)
    ensures fresh(sites) && forall k :: 0 <= k < sites.Length ==> fresh(sites[k])
  {
    SumAtLeastLength(sizes);
    var laidOut, starts := LayOut(sizes);
    LinkFiles(laidOut, starts);
    ghost var ring := Ring(laidOut);
    sites := new VLogSite[|laidOut|](i requires 0 <= i < |laidOut| => laidOut[i]);
    assert sites[..] == laidOut;
    assert ring == Ring(laidOut);
  }

  lemma SameSites<T>(s: seq<T>, t: seq<T>)
    requires multiset(s) == multiset(t)
    ensures forall k :: 0 <= k < |s| ==> s[k] in t
  {
    forall k | 0 <= k < |s|
      ensures s[k] in t
    {
      assert s[k] in multiset(s);
    }
  }

  method BuildShuffled(sizes: seq<nat>, cuts: seq<Cuts>) returns (order: array<VLogSite>, built: seq<VLogSite>)
    requires |sizes| > 0 && (forall k :: 0 <= k < |sizes| ==> sizes[k] > 0) && CutsInRange(cuts, Sum(sizes))
    ensures order.Length == |built| == Sum(sizes) && Ring(order[..])
    ensures FilesOf(built) == FileList(sizes) && order[..] == ShuffledAll(built, cuts)
    ensures multiset(FilesOf(order[..])) == multiset(FileList(sizes))
    ensures fresh(order) && forall k :: 0 <= k < order.Length ==> fresh(order[k])
  {
    var sites := BuildRing(sizes);
    var n, first := sites.Length, sites[0];
    built := sites[..n];
    assert built == sites[..];
    ghost var ring := Ring(built);
    var newSites := new VLogSite[n](_ => first);
    assert ring == Ring(built);
    order := ShuffleAll(sites, newSites, n, cuts);
    assert order[..n] == order[..];
    FilesOfReordered(order[..], built);
    SameSites(order[..], built);
  }

  /**
   The constructor of `SyntheticBinary`: one or more files with one or more sites each,
   any number of shuffles of the order `built` in which they were laid out. The list from
   `head` is the first `|sizes|` sites of the final order, so it holds every site if and
   only if every file has exactly one.
   */
  method SyntheticBinary(sizes: seq<nat>, cuts: seq<Cuts>)
      returns (head: VLogSite, order: seq<VLogSite>, built: seq<VLogSite>)
    requires |sizes| > 0 && (forall k :: 0 <= k < |sizes| ==> sizes[k] > 0) && CutsInRange(cuts, Sum(sizes))
    ensures |sizes| <= |order| == |built| == Sum(sizes) && Distinct(order)
    ensures FilesOf(built) == FileList(sizes) && order == ShuffledAll(built, cuts)
    ensures multiset(FilesOf(order)) == multiset(FileList(sizes))
    ensures Chain(order[..|sizes|]) && head == order[0]
    ensures |order[..|sizes|]| == |order| <==> forall k :: 0 <= k < |sizes| ==> sizes[k] == 1
  {
    SumAtLeastLength(sizes);
    var sites;
    sites, built := BuildShuffled(sizes, cuts);
    order := sites[..];
    assert sites[..sites.Length] == order;
    head := sites[0];
    CutOpen(sites, sites.Length, |sizes|);
    assert order[..|sizes|] == sites[..|sizes|];
  }

  /** One file with two sites: walking the list from its head misses the second. */
  method SecondSiteIsLost() returns (visited: seq<VLogSite>, order: seq<VLogSite>)
    ensures |order| == 2 && visited == [order[0]]
  {
    assert Sum([2]) == 2;
    var head, built;
    head, order, built := SyntheticBinary([2], []);
    visited := Walk(head, order[..1]);
  }
}
