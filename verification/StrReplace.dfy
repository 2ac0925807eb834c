/**
 Model of the two reference replacement loops in `SetUpStrings`
 (benchmark/strings/str_replace_benchmark.cc): one overwrites "the" with "box" in
 place, the other replaces several needles with replacements of any length.
 */
module StrReplace {

  predicate OccursAt(s: string, needle: string, i: nat) {
    i + |needle| <= |s| && Agree(s, needle, i, 0)
  }

  /** The characters of `needle` from `j` on are those of `s` from `i + j` on. */
  predicate Agree(s: string, needle: string, i: nat, j: nat)
    requires i + |needle| <= |s| && j <= |needle|
    decreases |needle| - j
  {
    j == |needle| || (s[i + j] == needle[j] && Agree(s, needle, i, j + 1))
  }

  lemma {:induction false} AgreeMeansEqual(s: string, needle: string, i: nat, j: nat)
    requires i + |needle| <= |s| && j <= |needle|
    ensures Agree(s, needle, i, j) <==> s[i + j..i + |needle|] == needle[j..]
    decreases |needle| - j
  {
    if j < |needle| {
      AgreeMeansEqual(s, needle, i, j + 1);
      assert s[i + j..i + |needle|] == [s[i + j]] + s[i + j + 1..i + |needle|];
      assert needle[j..] == [needle[j]] + needle[j + 1..];
    }
  }

  /** `std::string::find`: the first occurrence at or after `pos`, or -1. */
  function Find(s: string, needle: string, pos: nat): (r: int)
    ensures r == -1 || (pos <= r && OccursAt(s, needle, r))
    ensures forall i :: pos <= i && (r == -1 || i < r) ==> !OccursAt(s, needle, i)
    decreases |s| - pos
  {
    if pos + |needle| > |s| then -1
    else if OccursAt(s, needle, pos) then pos
    else Find(s, needle, pos + 1)
  }

  // ---- "the" to "box", in place ----

  predicate TheAt(s: string, i: nat) {
    i + 3 <= |s| && s[i] == 't' && s[i + 1] == 'h' && s[i + 2] == 'e'
  }

  lemma TheOccurs(s: string, i: nat)
    ensures TheAt(s, i) <==> OccursAt(s, "the", i)
  {
  }

  /** `now` is `s` with the occurrences that begin before `d` overwritten, and nothing else changed. */
  ghost predicate Boxed(s: string, now: string, d: nat) {
    && |now| == |s|
    && (forall p :: 0 <= p < d && TheAt(s, p) ==> now[p] == 'b' && now[p + 1] == 'o' && now[p + 2] == 'x')
    && (forall i :: 0 <= i < |s| && !Covered(s, d, i) ==> now[i] == s[i])
  }

  /** Position `i` lies in an occurrence that begins before `d`. */
  predicate Covered(s: string, d: nat, i: nat) {
    || (i < d && TheAt(s, i))
    || (1 <= i < d + 1 && TheAt(s, i - 1))
    || (2 <= i < d + 2 && TheAt(s, i - 2))
  }

  /** Overwriting neither destroys a later occurrence nor creates a new one. */
  lemma RemainingOccurrences(s: string, now: string, d: nat, q: nat)
    requires Boxed(s, now, d)
    ensures TheAt(now, q) <==> q >= d && TheAt(s, q)
  {
  }

  /** Two different occurrences of "the" are at least three apart. */
  lemma NoOverlap(s: string, q: nat)
    requires TheAt(s, q)
    ensures !TheAt(s, q + 1) && !TheAt(s, q + 2)
    ensures q >= 1 ==> !TheAt(s, q - 1)
    ensures q >= 2 ==> !TheAt(s, q - 2)
  {
  }

  lemma BoxStep(s: string, now: string, d: nat, q: nat)
    requires Boxed(s, now, d) && d <= q && TheAt(s, q)
    requires forall p :: d <= p < q ==> !TheAt(s, p)
    ensures Boxed(s, now[q := 'b'][q + 1 := 'o'][q + 2 := 'x'], q + 1)
  {
  }

  /** The state of the loop: `pos` is the next occurrence to overwrite, or -1 if there is none. */
  ghost predicate Boxing(s: string, now: string, d: nat, pos: int) {
    && Boxed(s, now, d) && d <= |s|
    && (pos == -1 || (d <= pos && TheAt(s, pos)))
    && (forall p :: d <= p && (pos == -1 || p < pos) ==> !TheAt(s, p))
  }

  /** Searching the changed text from where it was last changed finds the next original occurrence. */
  lemma SearchAgain(s: string, now: string, d: nat, from: nat)
    requires Boxed(s, now, d) && from <= d <= |s|
    ensures Boxing(s, now, d, Find(now, "the", from))
  {
    var r := Find(now, "the", from);
    if r != -1 {
      TheOccurs(now, r);
      RemainingOccurrences(s, now, d, r);
    }
    forall p | d <= p && (r == -1 || p < r)
      ensures !TheAt(s, p)
    {
      TheOccurs(now, p);
      RemainingOccurrences(s, now, d, p);
    }
  }

  lemma BoxingEnds(s: string, now: string, d: nat)
    requires Boxing(s, now, d, -1)
    ensures Boxed(s, now, |s|)
    ensures forall i :: !TheAt(now, i)
  {
  }

  /**
   The in-place loop. It searches again from the position it has just overwritten,
   yet it ends: every occurrence of "the" in the original text, and nothing else, has
   become "box", and no "the" is left.
   */
  method ReplaceThe(text: array<char>)
    modifies text
    ensures Boxed(old(text[..]), text[..], text.Length)
    ensures forall i :: !TheAt(text[..], i)
  {
    ghost var s := text[..];
    ghost var d: nat := 0;
    SearchAgain(s, s, 0, 0);
    var pos := Find(text[..], "the", 0);
    while pos != -1
      invariant Boxing(s, text[..], d, pos)
      decreases pos != -1, |s| - d
    {
      BoxStep(s, text[..], d, pos);
      Overwrite(text, pos);
      d := pos + 1;
      SearchAgain(s, text[..], d, pos);
      pos := Find(text[..], "the", pos);
    }
    BoxingEnds(s, text[..], d);
  }

  /** `memcpy` of "box" over three characters. */
  method Overwrite(text: array<char>, pos: nat)
    requires pos + 3 <= text.Length
    modifies text
    ensures text[..] == old(text[..])[pos := 'b'][pos + 1 := 'o'][pos + 2 := 'x']
  {
    text[pos], text[pos + 1], text[pos + 2] := 'b', 'o', 'x';
  }

  // ---- Several needles ----

  datatype Replacement = Replacement(needle: string, replacement: string)

  predicate NonEmpty(reps: seq<Replacement>) {
    forall k :: 0 <= k < |reps| ==> reps[k].needle != ""
  }

  /** The first needle, from the one listed at `k` on, that occurs at `i`; or the number of needles. */
  function FirstAt(s: string, i: nat, reps: seq<Replacement>, k: nat): (r: nat)
    requires k <= |reps|
    ensures k <= r <= |reps|
    ensures r < |reps| ==> OccursAt(s, reps[r].needle, i)
    decreases |reps| - k
  {
    if k == |reps| || OccursAt(s, reps[k].needle, i) then k else FirstAt(s, i, reps, k + 1)
  }

  lemma {:induction false} FirstAtIs(s: string, i: nat, reps: seq<Replacement>, k: nat, r: nat)
    requires k <= r <= |reps| && (r < |reps| ==> OccursAt(s, reps[r].needle, i))
    requires forall j :: k <= j < r ==> !OccursAt(s, reps[j].needle, i)
    ensures FirstAt(s, i, reps, k) == r
    decreases r - k
  {
    if k < r {
      FirstAtIs(s, i, reps, k + 1, r);
    }
  }

  /**
   The reference: read `s` from position `i` on once, from left to right, preferring
   needles listed first, and never look back.
   */
  function ReplaceFrom(s: string, i: nat, reps: seq<Replacement>): string
    requires NonEmpty(reps) && i <= |s|
    decreases |s| - i
  {
    if i == |s| then ""
    else
      var k := FirstAt(s, i, reps, 0);
      if k == |reps| then [s[i]] + ReplaceFrom(s, i + 1, reps)
      else reps[k].replacement + ReplaceFrom(s, i + |reps[k].needle|, reps)
  }

  ghost predicate NoneBetween(s: string, reps: seq<Replacement>, i: nat, j: nat) {
    forall k, p :: 0 <= k < |reps| && i <= p < j ==> !OccursAt(s, reps[k].needle, p)
  }

  /** `k` is the first listed of the needles that match leftmost from `i` on, and they match at `j`. */
  ghost predicate BestMatch(s: string, reps: seq<Replacement>, i: nat, k: nat, j: nat) {
    && k < |reps| && i <= j && OccursAt(s, reps[k].needle, j)
    && NoneBetween(s, reps, i, j)
    && (forall h :: 0 <= h < k ==> !OccursAt(s, reps[h].needle, j))
  }

  lemma CopyOne(s: string, reps: seq<Replacement>, i: nat)
    requires NonEmpty(reps) && i < |s|
    requires forall k :: 0 <= k < |reps| ==> !OccursAt(s, reps[k].needle, i)
    ensures ReplaceFrom(s, i, reps) == [s[i]] + ReplaceFrom(s, i + 1, reps)
  {
  }

  lemma Push(s: string, i: nat, j: nat, more: string)
    requires i < j <= |s|
    ensures s[i..j] + more == [s[i]] + (s[i + 1..j] + more)
  {
  }

  /** Text before the first match is copied unchanged. */
  lemma {:induction false} CopyUntilMatch(s: string, reps: seq<Replacement>, i: nat, j: nat)
    requires NonEmpty(reps) && i <= j <= |s| && NoneBetween(s, reps, i, j)
    ensures ReplaceFrom(s, i, reps) == s[i..j] + ReplaceFrom(s, j, reps)
    decreases j - i
  {
    if i == j {
      assert s[i..j] == "";
    } else {
      CopyOne(s, reps, i);
      CopyUntilMatch(s, reps, i + 1, j);
      Push(s, i, j, ReplaceFrom(s, j, reps));
    }
  }

  /** Replacing the best match and then going on behind it is what the reference does. */
  lemma ReplaceBest(s: string, reps: seq<Replacement>, i: nat, k: nat, j: nat)
    requires NonEmpty(reps) && i <= |s| && BestMatch(s, reps, i, k, j)
    ensures ReplaceFrom(s, i, reps)
         == s[i..j] + (reps[k].replacement + ReplaceFrom(s, j + |reps[k].needle|, reps))
  {
    CopyUntilMatch(s, reps, i, j);
    FirstAtIs(s, j, reps, 0, k);
  }

  /** The search of one round: the leftmost match at or after `pos`, the first listed if there are several. */
  method BestFrom(text: string, pos: nat, reps: seq<Replacement>) returns (next: int, best: nat)
    requires NonEmpty(reps) && pos <= |text|
    ensures next == -1 ==> NoneBetween(text, reps, pos, |text|)
    ensures next != -1 ==> 0 <= next && BestMatch(text, reps, pos, best, next)
  {
    next, best := -1, 0;
    for j := 0 to |reps|
      invariant next == -1 || (pos <= next && best < j && OccursAt(text, reps[best].needle, next))
      invariant forall k, i :: 0 <= k < j && pos <= i && (next == -1 || i < next) ==> !OccursAt(text, reps[k].needle, i)
      invariant next != -1 ==> forall k :: 0 <= k < best ==> !OccursAt(text, reps[k].needle, next)
    {
      var at := Find(text, reps[j].needle, pos);
      if at != -1 && (next == -1 || at < next) {
        next, best := at, j;
      }
    }
  }

  lemma {:induction false} SameAgree(s: string, q: nat, done: string, needle: string, i: nat, j: nat)
    requires q + i + |needle| <= |s| && j <= |needle|
    ensures Agree(done + s[q..], needle, |done| + i, j) <==> Agree(s, needle, q + i, j)
    decreases |needle| - j
  {
    if j < |needle| {
      SameAgree(s, q, done, needle, i, j + 1);
    }
  }

  /** What is left of the original in the text matches where the original does. */
  lemma SameMatches(s: string, q: nat, done: string, needle: string, i: nat)
    requires q <= |s|
    ensures OccursAt(done + s[q..], needle, |done| + i) <==> OccursAt(s, needle, q + i)
  {
    if q + i + |needle| <= |s| {
      SameAgree(s, q, done, needle, i, 0);
    }
  }

  lemma SameNone(s: string, q: nat, done: string, reps: seq<Replacement>, n: nat)
    requires q <= |s| && NoneBetween(done + s[q..], reps, |done|, |done| + n)
    ensures NoneBetween(s, reps, q, q + n)
  {
    forall k, p | 0 <= k < |reps| && q <= p < q + n
      ensures !OccursAt(s, reps[k].needle, p)
    {
      SameMatches(s, q, done, reps[k].needle, p - q);
    }
  }

  lemma SameBest(s: string, q: nat, done: string, reps: seq<Replacement>, k: nat, n: nat)
    requires q <= |s| && BestMatch(done + s[q..], reps, |done|, k, |done| + n)
    ensures BestMatch(s, reps, q, k, q + n)
  {
    SameNone(s, q, done, reps, n);
    forall h | 0 <= h <= k
      ensures OccursAt(s, reps[h].needle, q + n) <==> OccursAt(done + s[q..], reps[h].needle, |done| + n)
    {
      SameMatches(s, q, done, reps[h].needle, n);
    }
  }

  /** `done` is finished, and the original from `q` on is still to be read. */
  ghost predicate Progress(s: string, reps: seq<Replacement>, done: string, q: nat)
    requires NonEmpty(reps)
  {
    q <= |s| && done + ReplaceFrom(s, q, reps) == ReplaceFrom(s, 0, reps)
  }

  lemma ProgressStep(s: string, reps: seq<Replacement>, done: string, q: nat, k: nat, j: nat)
    requires NonEmpty(reps) && Progress(s, reps, done, q) && BestMatch(s, reps, q, k, j)
    ensures Progress(s, reps, done + s[q..j] + reps[k].replacement, j + |reps[k].needle|)
  {
    ReplaceBest(s, reps, q, k, j);
    Regroup(done, s[q..j], reps[k].replacement, ReplaceFrom(s, j + |reps[k].needle|, reps));
  }

  lemma ProgressEnds(s: string, reps: seq<Replacement>, done: string, q: nat)
    requires NonEmpty(reps) && Progress(s, reps, done, q) && NoneBetween(s, reps, q, |s|)
    ensures done + s[q..] == ReplaceFrom(s, 0, reps)
  {
    CopyUntilMatch(s, reps, q, |s|);
    assert s[q..] == s[q..|s|] + "";
  }

  lemma Regroup(a: string, b: string, c: string, d: string)
    ensures a + (b + (c + d)) == (a + b + c) + d
  {
  }

  /** `std::string::replace` of the needle at `next`. */
  function Replaced(text: string, next: nat, r: Replacement): string
    requires next + |r.needle| <= |text|
  {
    text[..next] + r.replacement + text[next + |r.needle|..]
  }

  lemma Splice(s: string, q: nat, done: string, text: string, next: nat, r: Replacement)
    requires q <= |s| && text == done + s[q..] && |done| <= next && next + |r.needle| <= |text|
    ensures var j := q + next - |done|;
      Replaced(text, next, r) == (done + s[q..j] + r.replacement) + s[j + |r.needle|..]
  {
  }

  /** The text up to `pos` is finished, and from `pos` on it is an unread end of the original. */
  ghost predicate ReadUpTo(s: string, reps: seq<Replacement>, text: string, pos: nat)
    requires NonEmpty(reps)
  {
    exists done, q: nat :: Progress(s, reps, done, q) && text == done + s[q..] && pos == |done|
  }

  lemma ReadTo(s: string, reps: seq<Replacement>, text: string, pos: nat, done: string, q: nat)
    requires NonEmpty(reps) && Progress(s, reps, done, q) && text == done + s[q..] && pos == |done|
    ensures ReadUpTo(s, reps, text, pos)
  {
  }

  lemma ReadRound(s: string, reps: seq<Replacement>, text: string, pos: nat, k: nat, next: nat)
    requires NonEmpty(reps) && ReadUpTo(s, reps, text, pos) && BestMatch(text, reps, pos, k, next)
    ensures next + |reps[k].needle| <= |text|
    ensures ReadUpTo(s, reps, Replaced(text, next, reps[k]), next + |reps[k].replacement|)
  {
    var done, q: nat :| Progress(s, reps, done, q) && text == done + s[q..] && pos == |done|;
    SameBest(s, q, done, reps, k, next - pos);
    ReplaceOne(s, reps, done, q, k, q + next - pos, text, next);
  }

  lemma ReplaceOne(s: string, reps: seq<Replacement>, done: string, q: nat, k: nat, j: nat, text: string, next: nat)
    requires NonEmpty(reps) && Progress(s, reps, done, q) && BestMatch(s, reps, q, k, j)
    requires text == done + s[q..] && next == |done| + j - q && next + |reps[k].needle| <= |text|
    ensures ReadUpTo(s, reps, Replaced(text, next, reps[k]), next + |reps[k].replacement|)
  {
    var r := reps[k];
    ProgressStep(s, reps, done, q, k, j);
    Splice(s, q, done, text, next, r);
    ReadTo(s, reps, Replaced(text, next, r), next + |r.replacement|, done + s[q..j] + r.replacement, j + |r.needle|);
  }

  lemma ReadEnds(s: string, reps: seq<Replacement>, text: string, pos: nat)
    requires NonEmpty(reps) && ReadUpTo(s, reps, text, pos) && NoneBetween(text, reps, pos, |text|)
    ensures text == ReplaceFrom(s, 0, reps)
  {
    var done, q: nat :| Progress(s, reps, done, q) && text == done + s[q..] && pos == |done|;
    SameNone(s, q, done, reps, |s| - q);
    ProgressEnds(s, reps, done, q);
  }

  lemma ReadStart(s: string, reps: seq<Replacement>)
    requires NonEmpty(reps)
    ensures ReadUpTo(s, reps, s, 0)
  {
    ReadTo(s, reps, s, 0, "", 0);
  }

  /**
   The multi-needle loop: it ends, and its result is the single-pass replacement of
   the original text. Inserted text is never searched, however long it is.
   */
  method ReplaceMany(original: string, reps: seq<Replacement>) returns (text: string)
    requires NonEmpty(reps)
    ensures text == ReplaceFrom(original, 0, reps)
  {
    text := original;
    var pos: nat := 0;
    ReadStart(original, reps);
    while true
      invariant pos <= |text| && ReadUpTo(original, reps, text, pos)
      decreases |text| - pos
    {
      var next, best := BestFrom(text, pos, reps);
      if next == -1 {
        ReadEnds(original, reps, text, pos);
        return;
      }
      var r := reps[best];
      ReadRound(original, reps, text, pos, best, next);
      text := Replaced(text, next, r);
      pos := next + |r.replacement|;
    }
  }

  // ---- The two loops agree ----

  const THE_TO_BOX := [Replacement("the", "box")]

  lemma BoxOne(s: string, i: nat)
    requires TheAt(s, i)
    ensures ReplaceFrom(s, i, THE_TO_BOX) == "box" + ReplaceFrom(s, i + 3, THE_TO_BOX)
  {
  }

  lemma KeepOne(s: string, i: nat)
    requires i < |s| && !TheAt(s, i)
    ensures ReplaceFrom(s, i, THE_TO_BOX) == [s[i]] + ReplaceFrom(s, i + 1, THE_TO_BOX)
  {
  }

  lemma BoxedTail(s: string, now: string, i: nat)
    requires Boxed(s, now, |s|) && TheAt(s, i)
    ensures now[i..] == "box" + now[i + 3..]
  {
  }

  lemma KeptTail(s: string, now: string, i: nat)
    requires Boxed(s, now, |s|) && i < |s| && !Covered(s, |s|, i)
    ensures now[i..] == [s[i]] + now[i + 1..]
  {
  }

  lemma BoxedHere(s: string, now: string, i: nat, tail: string, rest: string)
    requires Boxed(s, now, |s|) && TheAt(s, i) && tail == now[i..]
    requires rest == now[i + 3..] && ReplaceFrom(s, i + 3, THE_TO_BOX) == rest
    ensures ReplaceFrom(s, i, THE_TO_BOX) == tail
  {
    BoxOne(s, i);
    BoxedTail(s, now, i);
  }

  lemma KeptHere(s: string, now: string, i: nat, tail: string, rest: string)
    requires Boxed(s, now, |s|) && i < |s| && !TheAt(s, i) && !Covered(s, |s|, i) && tail == now[i..]
    requires rest == now[i + 1..] && ReplaceFrom(s, i + 1, THE_TO_BOX) == rest
    ensures ReplaceFrom(s, i, THE_TO_BOX) == tail
  {
    KeepOne(s, i);
    KeptTail(s, now, i);
  }

  /** From a position that is not inside an occurrence, the boxed text is what the reference makes. */
  lemma {:induction false} BoxedFrom(s: string, now: string, i: nat, tail: string)
    requires Boxed(s, now, |s|) && i <= |s| && tail == now[i..]
    requires (i >= 1 ==> !TheAt(s, i - 1)) && (i >= 2 ==> !TheAt(s, i - 2))
    ensures ReplaceFrom(s, i, THE_TO_BOX) == tail
    decreases |s| - i
  {
    if i < |s| {
      if TheAt(s, i) {
        var rest := now[i + 3..];
        NoOverlap(s, i);
        BoxedFrom(s, now, i + 3, rest);
        BoxedHere(s, now, i, tail, rest);
      } else {
        var rest := now[i + 1..];
        BoxedFrom(s, now, i + 1, rest);
        KeptHere(s, now, i, tail, rest);
      }
    }
  }

  /** So the in-place loop does what the multi-needle loop does with its one needle. */
  lemma BoxedIsReplaced(s: string, now: string)
    requires Boxed(s, now, |s|)
    ensures now == ReplaceFrom(s, 0, THE_TO_BOX)
  {
    BoxedFrom(s, now, 0, now);
    assert now[0..] == now;
  }
}
