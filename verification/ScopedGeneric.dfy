/**
 Model of `ScopedGeneric` (turbo/base/scoped_generic.h): objects that each own at most
 one value and free it with their own traits.

 The first part is a step machine over any number of objects; an object that has been
 destroyed keeps its number. The second part is the class itself, proved against it.
 */
module ScopedGenerics {

  datatype Data<V, R> = Data(generic: V, traits: R)

  datatype Slot<V, R> = Gone | Live(data: Data<V, R>)

  /**
   What the program may do. `Make` is each of the three plain constructors (the first
   one with the invalid value) and `Move` the constructor from an `RValue`, which is
   also what `Pass` returns; both add an object at the end.
   */
  datatype Op<V, R> =
    | Make(value: V, traits: R)
    | Move(from: nat)
    | Reset(id: nat, value: V)
    | Swap(id: nat, other: nat)
    | Release(id: nat)
    | Destroy(id: nat)

  /**
   A value travels with the traits it was acquired under: the ones given to the
   constructor, or the ones the object had at the `reset`. Each pair is recorded when
   an object takes responsibility for it, when it is freed and when it is released.
   */
  datatype World<V(==), R(==)> = World(
    objects: seq<Slot<V, R>>,
    acquired: multiset<(V, R)>,
    freed: multiset<(V, R)>,
    released: multiset<(V, R)>,
    crashed: bool
  )

  function Start<V(==), R(==)>(): World<V, R> {
    World([], multiset{}, multiset{}, multiset{}, false)
  }

  /** The pair an object is responsible for, if it holds a valid value. */
  function Own<V(==), R(==)>(invalid: V, d: Data<V, R>): multiset<(V, R)> {
    if d.generic == invalid then multiset{} else multiset{(d.generic, d.traits)}
  }

  function OwnSlot<V(==), R(==)>(invalid: V, slot: Slot<V, R>): multiset<(V, R)> {
    if slot.Live? then Own(invalid, slot.data) else multiset{}
  }

  function Held<V(==), R(==)>(invalid: V, objects: seq<Slot<V, R>>): multiset<(V, R)> {
    if objects == [] then multiset{}
    else OwnSlot(invalid, objects[0]) + Held(invalid, objects[1..])
  }

  ghost predicate Enabled<V, R>(w: World<V, R>, op: Op<V, R>) {
    && !w.crashed
    && match op
       case Make(_, _) => true
       case Move(from) => IsLive(w, from)
       case Reset(id, _) => IsLive(w, id)
       case Swap(id, other) => IsLive(w, id) && IsLive(w, other)
       case Release(id) => IsLive(w, id)
       case Destroy(id) => IsLive(w, id)
  }

  ghost predicate IsLive<V, R>(w: World<V, R>, id: nat) {
    id < |w.objects| && w.objects[id].Live?
  }

  ghost function Step<V, R>(invalid: V, w: World<V, R>, op: Op<V, R>): World<V, R>
    requires Enabled(w, op)
  {
    match op
    case Make(v, r) =>
      var d := Data(v, r);
      w.(objects := w.objects + [Live(d)], acquired := w.acquired + Own(invalid, d))
    case Move(from) =>
      var d := w.objects[from].data;
      w.(objects := w.objects[from := Live(d.(generic := invalid))] + [Live(d)])
    case Reset(id, v) =>
      var d := w.objects[id].data;
      if d.generic != invalid && d.generic == v then w.(crashed := true)
      else w.(objects := w.objects[id := Live(d.(generic := v))],
              freed := w.freed + Own(invalid, d),
              acquired := w.acquired + Own(invalid, d.(generic := v)))
    case Swap(id, other) =>
      w.(objects := w.objects[id := w.objects[other]][other := w.objects[id]])
    case Release(id) =>
      var d := w.objects[id].data;
      w.(objects := w.objects[id := Live(d.(generic := invalid))], released := w.released + Own(invalid, d))
    case Destroy(id) =>
      var d := w.objects[id].data;
      w.(objects := w.objects[id := Gone], freed := w.freed + Own(invalid, d))
  }

  ghost predicate Runs<V, R>(invalid: V, w: World<V, R>, ops: seq<Op<V, R>>)
    decreases ops
  {
    ops == [] || (Enabled(w, ops[0]) && Runs(invalid, Step(invalid, w, ops[0]), ops[1..]))
  }

  ghost function Run<V, R>(invalid: V, w: World<V, R>, ops: seq<Op<V, R>>): World<V, R>
    requires Runs(invalid, w, ops)
    decreases ops
  {
    if ops == [] then w else Run(invalid, Step(invalid, w, ops[0]), ops[1..])
  }

  // ---- Conservation ----

  /** Every pair acquired is held, freed or released, as often as it was acquired; the invalid value never is. */
  ghost predicate Inv<V, R>(invalid: V, w: World<V, R>) {
    && w.acquired == Held(invalid, w.objects) + w.freed + w.released
    && NoInvalid(invalid, w.acquired)
  }

  ghost predicate NoInvalid<V, R>(invalid: V, pairs: multiset<(V, R)>) {
    forall p :: p in pairs ==> p.0 != invalid
  }

  lemma {:induction false} HeldAppend<V, R>(invalid: V, s: seq<Slot<V, R>>, x: Slot<V, R>)
    ensures Held(invalid, s + [x]) == Held(invalid, s) + OwnSlot(invalid, x)
  {
    if s == [] {
      assert s + [x] == [x];
    } else {
      assert (s + [x])[1..] == s[1..] + [x];
      HeldAppend(invalid, s[1..], x);
    }
  }

  lemma AddFront<P>(a: multiset<P>, h': multiset<P>, x: multiset<P>, h: multiset<P>, y: multiset<P>)
    requires h' + x == h + y
    ensures a + h' + x == a + h + y
  {
    assert a + h' + x == a + (h' + x);
    assert a + h + y == a + (h + y);
  }

  lemma {:induction false} HeldWith<V, R>(invalid: V, s: seq<Slot<V, R>>, i: nat, x: Slot<V, R>, s': seq<Slot<V, R>>)
    requires i < |s| && s' == s[i := x]
    ensures Held(invalid, s') + OwnSlot(invalid, s[i]) == Held(invalid, s) + OwnSlot(invalid, x)
  {
    var own, new_, rest, rest' := OwnSlot(invalid, s[0]), OwnSlot(invalid, x), s[1..], s'[1..];
    if i == 0 {
      AddFront(Held(invalid, rest), new_, own, own, new_);
    } else {
      HeldWith(invalid, rest, i - 1, x, rest');
      AddFront(own, Held(invalid, rest'), OwnSlot(invalid, s[i]), Held(invalid, rest), new_);
    }
  }

  lemma HeldUpdate<V, R>(invalid: V, s: seq<Slot<V, R>>, i: nat, x: Slot<V, R>)
    requires i < |s|
    ensures Held(invalid, s[i := x]) + OwnSlot(invalid, s[i]) == Held(invalid, s) + OwnSlot(invalid, x)
  {
    HeldWith(invalid, s, i, x, s[i := x]);
  }

  lemma Balance<P>(a: multiset<P>, h: multiset<P>, f: multiset<P>, r: multiset<P>,
                   h': multiset<P>, x: multiset<P>, y: multiset<P>)
    requires a == h + f + r && h' + x == h + y
    ensures a + y == h' + (f + x) + r && a + y == h' + f + (r + x)
  {
    assert a + y == (h + y) + (f + r);
    assert (h' + x) + (f + r) == h' + (f + x) + r;
    assert (h' + x) + (f + r) == h' + f + (r + x);
  }

  lemma Cancel<P>(a: multiset<P>, b: multiset<P>, x: multiset<P>)
    requires a + x == b + x
    ensures a == b
  {
    assert forall p :: a[p] == (a + x)[p] - x[p] && b[p] == (b + x)[p] - x[p];
  }

  lemma MoveKeepsHeld<V, R>(invalid: V, s: seq<Slot<V, R>>, from: nat)
    requires from < |s| && s[from].Live?
    ensures var d := s[from].data;
      Held(invalid, s[from := Live(d.(generic := invalid))] + [Live(d)]) == Held(invalid, s)
  {
    var d := s[from].data;
    HeldUpdate(invalid, s, from, Live(d.(generic := invalid)));
    HeldAppend(invalid, s[from := Live(d.(generic := invalid))], Live(d));
  }

  lemma SwapKeepsHeld<V, R>(invalid: V, s: seq<Slot<V, R>>, i: nat, j: nat)
    requires i < |s| && j < |s|
    ensures Held(invalid, s[i := s[j]][j := s[i]]) == Held(invalid, s)
  {
    HeldUpdate(invalid, s, i, s[j]);
    var s1 := s[i := s[j]];
    HeldUpdate(invalid, s1, j, s[i]);
    Cancel(Held(invalid, s1[j := s[i]]), Held(invalid, s), OwnSlot(invalid, s[j]));
  }

  /** The object at `id` gives up what it owns, to be freed or released, and takes what `x` owns. */
  lemma ReplaceBalances<V, R>(invalid: V, w: World<V, R>, id: nat, x: Slot<V, R>)
    requires Inv(invalid, w) && id < |w.objects|
    ensures var own, new_ := OwnSlot(invalid, w.objects[id]), OwnSlot(invalid, x);
      && w.acquired + new_ == Held(invalid, w.objects[id := x]) + (w.freed + own) + w.released
      && w.acquired + new_ == Held(invalid, w.objects[id := x]) + w.freed + (w.released + own)
  {
    HeldUpdate(invalid, w.objects, id, x);
    Balance(w.acquired, Held(invalid, w.objects), w.freed, w.released, Held(invalid, w.objects[id := x]),
            OwnSlot(invalid, w.objects[id]), OwnSlot(invalid, x));
  }

  lemma MakeKeepsInv<V, R>(invalid: V, w: World<V, R>, op: Op<V, R>)
    requires Inv(invalid, w) && Enabled(w, op) && op.Make?
    ensures Inv(invalid, Step(invalid, w, op))
  {
    var d := Data(op.value, op.traits);
    HeldAppend(invalid, w.objects, Live(d));
    assert w.acquired + Own(invalid, d) == Held(invalid, w.objects) + Own(invalid, d) + w.freed + w.released;
  }

  lemma ResetKeepsInv<V, R>(invalid: V, w: World<V, R>, op: Op<V, R>)
    requires Inv(invalid, w) && Enabled(w, op) && op.Reset?
    ensures Inv(invalid, Step(invalid, w, op))
  {
    ReplaceBalances(invalid, w, op.id, Live(w.objects[op.id].data.(generic := op.value)));
  }

  lemma ReleaseKeepsInv<V, R>(invalid: V, w: World<V, R>, op: Op<V, R>)
    requires Inv(invalid, w) && Enabled(w, op) && op.Release?
    ensures Inv(invalid, Step(invalid, w, op))
  {
    ReplaceBalances(invalid, w, op.id, Live(w.objects[op.id].data.(generic := invalid)));
    assert w.acquired + multiset{} == w.acquired;
  }

  lemma DestroyKeepsInv<V, R>(invalid: V, w: World<V, R>, op: Op<V, R>)
    requires Inv(invalid, w) && Enabled(w, op) && op.Destroy?
    ensures Inv(invalid, Step(invalid, w, op))
  {
    ReplaceBalances(invalid, w, op.id, Gone);
    assert w.acquired + multiset{} == w.acquired;
  }

  lemma StepKeepsInv<V, R>(invalid: V, w: World<V, R>, op: Op<V, R>)
    requires Inv(invalid, w) && Enabled(w, op)
    ensures Inv(invalid, Step(invalid, w, op))
  {
    match op
    case Make(_, _) => MakeKeepsInv(invalid, w, op);
    case Move(from) => MoveKeepsHeld(invalid, w.objects, from);
    case Reset(_, _) => ResetKeepsInv(invalid, w, op);
    case Swap(id, other) => SwapKeepsHeld(invalid, w.objects, id, other);
    case Release(_) => ReleaseKeepsInv(invalid, w, op);
    case Destroy(_) => DestroyKeepsInv(invalid, w, op);
  }

  /** In every run, acquired = held + freed + released, counted with the traits of each value. */
  lemma {:induction false} RunKeepsInv<V, R>(invalid: V, w: World<V, R>, ops: seq<Op<V, R>>)
    requires Inv(invalid, w) && Runs(invalid, w, ops)
    ensures Inv(invalid, Run(invalid, w, ops))
    decreases ops
  {
    if ops != [] {
      StepKeepsInv(invalid, w, ops[0]);
      RunKeepsInv(invalid, Step(invalid, w, ops[0]), ops[1..]);
    }
  }

  ghost predicate AllGone<V, R>(s: seq<Slot<V, R>>) {
    forall i :: 0 <= i < |s| ==> s[i].Gone?
  }

  /** In every run after which all objects have been destroyed, everything acquired has been freed or released. */
  lemma NothingLeaks<V, R>(invalid: V, ops: seq<Op<V, R>>)
    requires Runs(invalid, Start<V, R>(), ops) && AllGone(Run(invalid, Start<V, R>(), ops).objects)
    ensures var w := Run(invalid, Start<V, R>(), ops); w.acquired == w.freed + w.released
  {
    RunKeepsInv(invalid, Start<V, R>(), ops);
    AllSettled(invalid, Run(invalid, Start<V, R>(), ops));
  }

  lemma AllSettled<V, R>(invalid: V, w: World<V, R>)
    requires Inv(invalid, w) && AllGone(w.objects)
    ensures w.acquired == w.freed + w.released
  {
    NoneHeld(invalid, w.objects);
  }

  lemma {:induction false} NoneHeld<V, R>(invalid: V, s: seq<Slot<V, R>>)
    requires AllGone(s)
    ensures Held(invalid, s) == multiset{}
  {
    if s != [] {
      NoneHeld(invalid, s[1..]);
    }
  }

  // ---- Single ownership ----

  /** No value is there twice, under the same traits or under others. */
  ghost predicate Distinct<V, R>(pairs: multiset<(V, R)>) {
    && (forall p :: p in pairs ==> pairs[p] == 1)
    && (forall p, q :: p in pairs && q in pairs && p.0 == q.0 ==> p == q)
  }

  /**
   The step takes responsibility for no value, or for one that no object holds now. A
   value that was freed or released may well come back, as descriptors do.
   */
  ghost predicate Fresh<V, R>(invalid: V, w: World<V, R>, op: Op<V, R>) {
    (op.Make? || op.Reset?) && op.value != invalid ==>
      forall p :: p in Held(invalid, w.objects) ==> p.0 != op.value
  }

  ghost predicate FreshRun<V, R>(invalid: V, w: World<V, R>, ops: seq<Op<V, R>>)
    requires Runs(invalid, w, ops)
    decreases ops
  {
    ops == [] || (Fresh(invalid, w, ops[0]) && FreshRun(invalid, Step(invalid, w, ops[0]), ops[1..]))
  }

  lemma OwnIsHeld<V, R>(invalid: V, s: seq<Slot<V, R>>, i: nat)
    requires i < |s|
    ensures Held(invalid, s) == Held(invalid, s[i := Gone]) + OwnSlot(invalid, s[i])
  {
    HeldUpdate(invalid, s, i, Gone);
  }

  lemma FreshPair<V, R>(invalid: V, pairs: multiset<(V, R)>, d: Data<V, R>)
    requires Distinct(pairs) && (d.generic == invalid || forall p :: p in pairs ==> p.0 != d.generic)
    ensures Distinct(pairs + Own(invalid, d))
  {
  }

  lemma FewerAreDistinct<P, R>(fewer: multiset<(P, R)>, more: multiset<(P, R)>)
    requires fewer <= more && Distinct(more)
    ensures Distinct(fewer) && forall p :: p in fewer ==> p in more
  {
    assert forall p :: p in fewer ==> 1 <= fewer[p] <= more[p];
  }

  lemma GiveUpKeepsDistinct<V, R>(invalid: V, s: seq<Slot<V, R>>, id: nat)
    requires id < |s| && Distinct(Held(invalid, s))
    ensures Distinct(Held(invalid, s[id := Gone]))
    ensures forall p :: p in Held(invalid, s[id := Gone]) ==> p in Held(invalid, s)
  {
    OwnIsHeld(invalid, s, id);
    FewerAreDistinct(Held(invalid, s[id := Gone]), Held(invalid, s));
  }

  /** The object at `id` gives up what it holds and takes what `d` holds, which nobody held. */
  lemma ExchangeKeepsDistinct<V, R>(invalid: V, s: seq<Slot<V, R>>, id: nat, d: Data<V, R>)
    requires id < |s| && Distinct(Held(invalid, s))
    requires d.generic == invalid || forall p :: p in Held(invalid, s) ==> p.0 != d.generic
    ensures Distinct(Held(invalid, s[id := Live(d)]))
  {
    var rest := Held(invalid, s[id := Gone]);
    GiveUpKeepsDistinct(invalid, s, id);
    FreshPair(invalid, rest, d);
    OwnIsHeld(invalid, s[id := Live(d)], id);
    assert s[id := Live(d)][id := Gone] == s[id := Gone];
  }

  lemma FreshStepKeepsDistinct<V, R>(invalid: V, w: World<V, R>, op: Op<V, R>)
    requires Distinct(Held(invalid, w.objects)) && Enabled(w, op) && Fresh(invalid, w, op)
    ensures Distinct(Held(invalid, Step(invalid, w, op).objects))
  {
    var s := w.objects;
    match op
    case Make(v, r) =>
      HeldAppend(invalid, s, Live(Data(v, r)));
      FreshPair(invalid, Held(invalid, s), Data(v, r));
    case Move(from) => MoveKeepsHeld(invalid, s, from);
    case Reset(id, v) => ExchangeKeepsDistinct(invalid, s, id, s[id].data.(generic := v));
    case Swap(id, other) => SwapKeepsHeld(invalid, s, id, other);
    case Release(id) => ExchangeKeepsDistinct(invalid, s, id, s[id].data.(generic := invalid));
    case Destroy(id) => GiveUpKeepsDistinct(invalid, s, id);
  }

  /** If nothing is acquired that is held already, the check of `reset` never fails. */
  lemma FreshStepNeverCrashes<V, R>(invalid: V, w: World<V, R>, op: Op<V, R>)
    requires Enabled(w, op) && Fresh(invalid, w, op)
    ensures !Step(invalid, w, op).crashed
  {
    if op.Reset? {
      var d := w.objects[op.id].data;
      OwnIsHeld(invalid, w.objects, op.id);
      assert d.generic != invalid ==> (d.generic, d.traits) in Held(invalid, w.objects);
    }
  }

  lemma {:induction false} FreshRunKeeps<V, R>(invalid: V, w: World<V, R>, ops: seq<Op<V, R>>)
    requires Inv(invalid, w) && Distinct(Held(invalid, w.objects)) && !w.crashed
    requires Runs(invalid, w, ops) && FreshRun(invalid, w, ops)
    ensures var w' := Run(invalid, w, ops);
      !w'.crashed && Inv(invalid, w') && Distinct(Held(invalid, w'.objects))
    decreases ops
  {
    if ops != [] {
      StepKeepsInv(invalid, w, ops[0]);
      FreshStepKeepsDistinct(invalid, w, ops[0]);
      FreshStepNeverCrashes(invalid, w, ops[0]);
      FreshRunKeeps(invalid, Step(invalid, w, ops[0]), ops[1..]);
    }
  }

  /** Two objects never hold the same value. */
  lemma SingleOwner<V, R>(invalid: V, w: World<V, R>, i: nat, j: nat)
    requires Distinct(Held(invalid, w.objects))
    requires IsLive(w, i) && IsLive(w, j) && i != j && w.objects[i].data.generic != invalid
    ensures w.objects[i].data.generic != w.objects[j].data.generic
  {
    var a, b, held := w.objects[i].data, w.objects[j].data, Held(invalid, w.objects);
    OwnIsHeld(invalid, w.objects, i);
    OwnIsHeld(invalid, w.objects[i := Gone], j);
    var p, q := (a.generic, a.traits), (b.generic, b.traits);
    assert p in held && (b.generic != invalid ==> q in held);
    assert p == q ==> held[p] >= 2;
  }

  /**
   In every run, each value is freed, with the traits it was acquired under, exactly as
   often as it was acquired under them and is neither held nor was released; the invalid
   value is never freed.
   */
  lemma FreesMatch<V, R>(invalid: V, ops: seq<Op<V, R>>, p: (V, R))
    requires Runs(invalid, Start<V, R>(), ops)
    ensures var w := Run(invalid, Start<V, R>(), ops);
      && w.freed[p] + w.released[p] + Held(invalid, w.objects)[p] == w.acquired[p]
      && (p.0 == invalid ==> p !in w.freed)
  {
    RunKeepsInv(invalid, Start<V, R>(), ops);
    var w := Run(invalid, Start<V, R>(), ops);
    assert p in w.freed ==> p in w.acquired;
  }

  /** In every run, a value acquired once and freed was freed once, and is neither held nor was released. */
  lemma FreedOnce<V, R>(invalid: V, ops: seq<Op<V, R>>, p: (V, R))
    requires Runs(invalid, Start<V, R>(), ops)
    ensures var w := Run(invalid, Start<V, R>(), ops);
      p in w.freed && w.acquired[p] == 1 ==>
        w.freed[p] == 1 && p !in Held(invalid, w.objects) && p !in w.released
  {
    FreesMatch(invalid, ops, p);
  }

  /** All of it, for every run from the start in which no value is acquired while it is held. */
  lemma OwnershipIsSafe<V, R>(invalid: V, ops: seq<Op<V, R>>, i: nat, j: nat, p: (V, R))
    requires Runs(invalid, Start<V, R>(), ops) && FreshRun(invalid, Start<V, R>(), ops)
    ensures var w := Run(invalid, Start<V, R>(), ops);
      && !w.crashed
      && w.freed[p] + w.released[p] + Held(invalid, w.objects)[p] == w.acquired[p]
      && Held(invalid, w.objects)[p] <= 1
      && (p.0 == invalid ==> p !in w.freed)
      && (IsLive(w, i) && IsLive(w, j) && i != j && w.objects[i].data.generic != invalid
          ==> w.objects[i].data.generic != w.objects[j].data.generic)
  {
    FreshRunKeeps(invalid, Start<V, R>(), ops);
    var w := Run(invalid, Start<V, R>(), ops);
    FreesMatch(invalid, ops, p);
    if IsLive(w, i) && IsLive(w, j) && i != j && w.objects[i].data.generic != invalid {
      SingleOwner(invalid, w, i, j);
    }
  }

  // ---- The class ----

  /** The calls of `Traits::Free`, each with the traits it was made on. */
  class FreeLog<V(==), R(==)> {
    var freed: multiset<(V, R)>

    constructor ()
      ensures freed == multiset{}
    {
      freed := multiset{};
    }

    method Free(traits: R, value: V)
      modifies this
      ensures freed == old(freed) + multiset{(value, traits)}
    {
      freed := freed + multiset{(value, traits)};
    }
  }

  class ScopedGeneric<V(==), R(==)> {
    const invalid: V
    const log: FreeLog<V, R>
    var data: Data<V, R>

    constructor (invalid: V, log: FreeLog<V, R>, value: V, traits: R)
      ensures this.invalid == invalid && this.log == log && data == Data(value, traits)
    {
      this.invalid, this.log, data := invalid, log, Data(value, traits);
    }

    constructor FromRValue(rvalue: ScopedGeneric<V, R>)
      modifies rvalue
      ensures invalid == rvalue.invalid && log == rvalue.log
      ensures data == old(rvalue.data) && rvalue.data == old(rvalue.data).(generic := invalid)
    {
      var value := rvalue.Release();
      invalid, log, data := rvalue.invalid, rvalue.log, Data(value, rvalue.data.traits);
    }

    method Release() returns (value: V)
      modifies this
      ensures value == old(data.generic) && data == old(data).(generic := invalid)
    {
      value := data.generic;
      data := data.(generic := invalid);
    }

    method FreeIfNecessary()
      modifies this, log
      ensures data == old(data).(generic := invalid)
      ensures log.freed == old(log.freed) + old(Own(invalid, data))
    {
      if data.generic != invalid {
        log.Free(data.traits, data.generic);
        data := data.(generic := invalid);
      }
    }

    /** `ok` is false if the check against self-resets fails, and then nothing has changed. */
    method Reset(value: V) returns (ok: bool)
      modifies this, log
      ensures ok <==> old(data.generic) == invalid || old(data.generic) != value
      ensures ok ==> data == old(data).(generic := value)
      ensures ok ==> log.freed == old(log.freed) + old(Own(invalid, data))
      ensures !ok ==> data == old(data) && log.freed == old(log.freed)
    {
      ok := data.generic == invalid || data.generic != value;
      if ok {
        FreeIfNecessary();
        data := data.(generic := value);
      }
    }

    method Swap(other: ScopedGeneric<V, R>)
      modifies this, other
      ensures data == old(other.data) && other.data == old(data)
    {
      var traits, generic := data.traits, data.generic;
      data, traits := data.(traits := other.data.traits), data.traits;
      other.data := other.data.(traits := traits);
      data, generic := data.(generic := other.data.generic), data.generic;
      other.data := other.data.(generic := generic);
    }
  }

  /** A program with its objects; `world` is the step machine's view of it. */
  class Program<V(==), R(==)> {
    const invalid: V
    const log: FreeLog<V, R>
    var objects: seq<ScopedGeneric?<V, R>>
    var crashed: bool
    ghost var world: World<V, R>

    ghost predicate Valid()
      reads this, log, objects
    {
      && |objects| == |world.objects| && crashed == world.crashed && log.freed == world.freed
      && (forall i :: 0 <= i < |objects| ==> Shows(objects[i], world.objects[i]))
      && (forall i, j :: 0 <= i < j < |objects| && objects[i] != null ==> objects[i] != objects[j])
    }

    ghost predicate Shows(o: ScopedGeneric?<V, R>, slot: Slot<V, R>)
      reads o
    {
      if o == null then slot == Gone
      else o.invalid == invalid && o.log == log && slot == Live(o.data)
    }

    /** The objects that were there before, other than those numbered in `changed`, hold what they held. */
    twostate predicate AllAsBefore(changed: set<nat>)
      reads this, objects
    {
      && |objects| >= |old(objects)|
      && forall i :: 0 <= i < |old(objects)| && i !in changed ==>
           objects[i] == old(objects[i]) && (objects[i] != null ==> objects[i].data == old(objects[i].data))
    }

    constructor (invalid: V)
      ensures Valid() && this.invalid == invalid && world == Start()
    {
      this.invalid, objects, crashed := invalid, [], false;
      log := new FreeLog();
      world := Start();
    }

    method Make(op: Op<V, R>)
      requires Valid() && Enabled(world, op) && op.Make?
      modifies this, log, objects
      ensures Valid() && world == Step(invalid, old(world), op)
      ensures |objects| == old(|objects|) + 1 && objects[..old(|objects|)] == old(objects)
      ensures objects[old(|objects|)] != null && fresh(objects[old(|objects|)])
      ensures objects[old(|objects|)].data == Data(op.value, op.traits)
      ensures AllAsBefore({}) && log.freed == old(log.freed) && !crashed
    {
      var o := new ScopedGeneric<V, R>(invalid, log, op.value, op.traits);
      objects := objects + [o];
      world := Step(invalid, world, op);
    }

    method Move(op: Op<V, R>)
      requires Valid() && Enabled(world, op) && op.Move?
      modifies this, log, objects
      ensures Valid() && world == Step(invalid, old(world), op)
      ensures |objects| == old(|objects|) + 1 && objects[..old(|objects|)] == old(objects)
      ensures objects[old(|objects|)] != null && fresh(objects[old(|objects|)])
      ensures objects[old(|objects|)].data == old(objects[op.from].data)
      ensures objects[op.from].data == old(objects[op.from].data).(generic := invalid)
      ensures AllAsBefore({op.from}) && log.freed == old(log.freed) && !crashed
    {
      var o := new ScopedGeneric<V, R>.FromRValue(objects[op.from]);
      objects := objects + [o];
      world := Step(invalid, world, op);
    }

    method Reset(op: Op<V, R>)
      requires Valid() && Enabled(world, op) && op.Reset?
      modifies this, log, objects
      ensures Valid() && world == Step(invalid, old(world), op)
      ensures objects == old(objects) && AllAsBefore({op.id})
      ensures crashed <==> old(objects[op.id].data.generic) == op.value != invalid
      ensures crashed ==> objects[op.id].data == old(objects[op.id].data) && log.freed == old(log.freed)
      ensures !crashed ==> objects[op.id].data == old(objects[op.id].data).(generic := op.value)
      ensures !crashed ==> log.freed == old(log.freed) + Own(invalid, old(objects[op.id].data))
    {
      var ok := objects[op.id].Reset(op.value);
      crashed := !ok;
      world := Step(invalid, world, op);
    }

    method Swap(op: Op<V, R>)
      requires Valid() && Enabled(world, op) && op.Swap?
      modifies this, log, objects
      ensures Valid() && world == Step(invalid, old(world), op)
      ensures objects == old(objects) && AllAsBefore({op.id, op.other})
      ensures objects[op.id].data == old(objects[op.other].data)
      ensures objects[op.other].data == old(objects[op.id].data)
      ensures log.freed == old(log.freed) && !crashed
    {
      objects[op.id].Swap(objects[op.other]);
      world := Step(invalid, world, op);
    }

    method Release(op: Op<V, R>) returns (value: V)
      requires Valid() && Enabled(world, op) && op.Release?
      modifies this, log, objects
      ensures Valid() && world == Step(invalid, old(world), op)
      ensures value == old(objects[op.id].data.generic)
      ensures objects == old(objects) && AllAsBefore({op.id})
      ensures objects[op.id].data == old(objects[op.id].data).(generic := invalid)
      ensures log.freed == old(log.freed) && !crashed
    {
      value := objects[op.id].Release();
      world := Step(invalid, world, op);
    }

    method Destroy(op: Op<V, R>)
      requires Valid() && Enabled(world, op) && op.Destroy?
      modifies this, log, objects
      ensures Valid() && world == Step(invalid, old(world), op)
      ensures objects == old(objects)[op.id := null] && AllAsBefore({op.id})
      ensures log.freed == old(log.freed) + Own(invalid, old(objects[op.id].data)) && !crashed
    {
      objects[op.id].FreeIfNecessary();
      objects := objects[op.id := null];
      world := Step(invalid, world, op);
    }

    /** Each operation of the class, done by the program, is a step of the machine. */
    method Do(op: Op<V, R>)
      requires Valid() && Enabled(world, op)
      modifies this, log, objects
      ensures Valid() && world == Step(invalid, old(world), op)
    {
      match op
      case Make(_, _) => Make(op);
      case Move(_) => Move(op);
      case Reset(_, _) => Reset(op);
      case Swap(_, _) => Swap(op);
      case Release(_) => var _ := Release(op);
      case Destroy(_) => Destroy(op);
    }
  }
}
