/**
 What each operation on an endpoint object (turbo/base/endpoint.cc) leaves behind when it
 is not disturbed: the value of every object and the change of every reference count.
 */
module EndPointEffects {
  import opened Common
  import opened EndPointRefs

  /** The counts are as before, but that of `id`, if it is there, has changed by `delta`. */
  ghost predicate CountChanges(s: State, s': State, id: nat, delta: int) {
    && s'.pool.Keys == s.pool.Keys
    && (forall i :: i in s.pool ==>
          && s'.pool[i].address == s.pool[i].address
          && s'.pool[i].refs == s.pool[i].refs + if i == id then delta else 0)
  }

  ghost predicate SameCounts(s: State, s': State) {
    CountChanges(s, s', 0, 0)
  }

  // ---- Operations of one step ----

  /** The constructor from an address and a port. */
  lemma NewStores(s: State, t: nat, h: nat, e: EndPoint)
    requires Enabled(s, New(t, h, e))
    ensures Apply(s, New(t, h, e)) == s.(objects := s.objects[h := e])
  {
  }

  /** The copy constructor: the new object equals the source, and one more holds what the source denotes. */
  lemma CopyNewCopies(s: State, t: nat, h: nat, src: nat)
    requires Inv(s) && Enabled(s, CopyNew(t, h, src))
    ensures var s', e := Apply(s, CopyNew(t, h, src)), s.objects[src];
      && s'.objects == s.objects[h := e]
      && CountChanges(s, s', e.ip, if Extended(e) then 1 else 0)
      && s'.taken == s.taken && s'.interned == s.interned && s'.jobs == s.jobs
  {
    ObjectIsCounted(s, src);
  }

  /** The functions that read an IPv4 endpoint store what they read and touch no count. */
  lemma ParseStores(s: State, a: Action)
    requires Enabled(s, a) && a.Parse?
    ensures var e := s.objects[a.h];
      Apply(s, a) == s.(objects := s.objects[a.h := EndPoint(a.ip.UnwrapOr(e.ip), a.port.UnwrapOr(e.port))])
  {
  }

  // ---- Operations of several steps ----

  lemma SettleStep(s: State, t: nat)
    requires t in s.jobs && JobOk(s, t)
    ensures Settle(s, t) == Settle(Resume(s, t, s.jobs[t]), t)
  {
    OwnStepAdvances(s, t);
  }

  lemma EraseEffect(s: State, t: nat)
    requires t in s.jobs && s.jobs[t].Erase?
    ensures var s' := Resume(s, t, s.jobs[t]);
      && s'.objects == s.objects && s'.pool == s.pool && s'.taken == s.taken
      && t in s'.jobs && s'.jobs[t] == Return(s.jobs[t].id, s.jobs[t].then_)
  {
  }

  lemma ReturnEffect(s: State, t: nat)
    requires t in s.jobs && s.jobs[t].Return?
    ensures var s' := Resume(s, t, s.jobs[t]);
      && s'.objects == s.objects && SameCounts(s, s') && s'.taken == s.taken - {s.jobs[t].id}
      && t in s'.jobs && s'.jobs[t] == Finish(s.jobs[t].then_)
  {
  }

  lemma JobIsOk(s: State, t: nat)
    requires Inv(s) && t in s.jobs
    ensures JobOk(s, t)
  {
  }

  /** A resource is given back. */
  lemma ReleaseGivesBack(s: State, t: nat) returns (s': State)
    requires Inv(s) && t in s.jobs && s.jobs[t].Erase?
    ensures Inv(s') && s'.objects == s.objects && SameCounts(s, s') && s'.taken == s.taken - {s.jobs[t].id}
    ensures t in s'.jobs && s'.jobs[t] == Finish(s.jobs[t].then_) && Settle(s, t) == Settle(s', t)
  {
    var mid := Resume(s, t, s.jobs[t]);
    JobIsOk(s, t);
    SettleStep(s, t);
    EraseEffect(s, t);
    EraseKeepsInv(s, t);
    s' := ReturnGivesBack(mid, t);
  }

  lemma ReturnGivesBack(s: State, t: nat) returns (s': State)
    requires Inv(s) && t in s.jobs && s.jobs[t].Return?
    ensures Inv(s') && s'.objects == s.objects && SameCounts(s, s') && s'.taken == s.taken - {s.jobs[t].id}
    ensures t in s'.jobs && s'.jobs[t] == Finish(s.jobs[t].then_) && Settle(s, t) == Settle(s', t)
  {
    s' := Resume(s, t, s.jobs[t]);
    JobIsOk(s, t);
    SettleStep(s, t);
    ReturnEffect(s, t);
    ReturnKeepsInv(s, t);
  }

  /** The rest of a reset once the count has been lowered. */
  lemma NothingSettles(s: State, t: nat)
    requires Inv(s) && t in s.jobs && (s.jobs[t].Erase? || s.jobs[t].Finish?) && s.jobs[t].then_ == Nothing
    ensures var s' := Settle(s, t);
      && t !in s'.jobs && s'.objects == s.objects && SameCounts(s, s')
      && s'.taken == if s.jobs[t].Erase? then s.taken - {s.jobs[t].id} else s.taken
  {
    var s1 := s;
    if s.jobs[t].Erase? {
      s1 := ReleaseGivesBack(s, t);
    }
    assert JobOk(s1, t);
    SettleStep(s1, t);
    assert Resume(s1, t, Finish(Nothing)) == s1.(jobs := s1.jobs - {t});
  }

  lemma DropLowers(s: State, t: nat, h: nat, next: Then)
    requires Counted(s, h)
    ensures var s', e := Drop(s, t, h, next), s.objects[h];
      && s'.objects == s.objects[h := ANY] && s'.taken == s.taken && s'.interned == s.interned
      && CountChanges(s, s', e.ip, if Extended(e) then -1 else 0)
      && s'.jobs == s.jobs[t := if Extended(e) && s.pool[e.ip].refs == 1 then Erase(e.ip, next) else Finish(next)]
  {
  }

  /** What a resource's release leaves: it is out of use exactly if its last reference was given up. */
  ghost predicate GivenUp(s: State, s': State, e: EndPoint) {
    && CountChanges(s, s', e.ip, if Extended(e) then -1 else 0)
    && s'.taken == if Extended(e) && e.ip in s.pool && s.pool[e.ip].refs == 1 then s.taken - {e.ip} else s.taken
  }

  /** Lowering the count and, if it was the last reference, giving the resource back. */
  lemma DropGivesUp(s: State, d: State, s': State, t: nat, e: EndPoint, next: Then)
    requires Extended(e) ==> e.ip in s.pool
    requires CountChanges(s, d, e.ip, if Extended(e) then -1 else 0) && d.taken == s.taken && t in d.jobs
    requires d.jobs[t] == if Extended(e) && s.pool[e.ip].refs == 1 then Erase(e.ip, next) else Finish(next)
    requires SameCounts(d, s') && s'.taken == if d.jobs[t].Erase? then d.taken - {d.jobs[t].id} else d.taken
    ensures GivenUp(s, s', e)
  {
  }

  /** `reset`: the object is empty, and the reference it held is given up. */
  lemma ResetClears(s: State, t: nat, h: nat)
    requires Inv(s) && Enabled(s, Reset(t, h))
    ensures var s' := Settle(Apply(s, Reset(t, h)), t);
      t !in s'.jobs && s'.objects == s.objects[h := ANY] && GivenUp(s, s', s.objects[h])
  {
    var d := Drop(s, t, h, Nothing);
    ObjectIsCounted(s, h);
    DropLowers(s, t, h, Nothing);
    DropKeepsInv(s, t, h, Nothing);
    NothingSettles(d, t);
    DropGivesUp(s, d, Settle(d, t), t, s.objects[h], Nothing);
  }

  /** The destructor: the object is gone, and the reference it held is given up. */
  lemma DestroyRemoves(s: State, t: nat, h: nat)
    requires Inv(s) && Enabled(s, Destroy(t, h))
    ensures var s' := Settle(Apply(s, Destroy(t, h)), t);
      t !in s'.jobs && s'.objects == s.objects - {h} && GivenUp(s, s', s.objects[h])
  {
    var d := Apply(s, Destroy(t, h));
    ObjectIsCounted(s, h);
    DestroyLowers(s, t, h, d);
    DestroyKeepsInv(s, t, h);
    NothingSettles(d, t);
    DropGivesUp(s, d, Settle(d, t), t, s.objects[h], Nothing);
  }

  lemma DestroyLowers(s: State, t: nat, h: nat, d: State)
    requires Counted(s, h) && Enabled(s, Destroy(t, h)) && d == Apply(s, Destroy(t, h))
    ensures var e := s.objects[h];
      && d.objects == s.objects - {h} && d.taken == s.taken
      && CountChanges(s, d, e.ip, if Extended(e) then -1 else 0)
      && d.jobs == s.jobs[t := if Extended(e) && s.pool[e.ip].refs == 1 then Erase(e.ip, Nothing) else Finish(Nothing)]
  {
    DropLowers(s, t, h, Nothing);
  }

  /** `embed_to`: the object denotes the resource from then on, whatever it denoted before. */
  lemma EmbedSettles(s: State, t: nat, h: nat, id: nat)
    requires Inv(s) && t in s.jobs && s.jobs[t] == Embedding(h, id)
    ensures h in s.objects
    ensures var s' := Settle(s, t);
      t !in s'.jobs && s'.objects == s.objects[h := EndPoint(id, EXTENDED_PORT)] && GivenUp(s, s', s.objects[h])
  {
    JobIsOk(s, t);
    EmbeddingWrites(s, t, h, id);
    SettleStep(s, t);
    ObjectIsCounted(s, h);
    DropKeepsInv(s, t, h, Embed(h, id));
    DropEmbeds(s, Drop(s, t, h, Embed(h, id)), t, h, id);
  }

  lemma EmbeddingWrites(s: State, t: nat, h: nat, id: nat)
    requires t in s.jobs && s.jobs[t] == Embedding(h, id) && JobOk(s, t)
    ensures h in s.objects && Resume(s, t, s.jobs[t]) == Drop(s, t, h, Embed(h, id))
  {
    assert h in Writes(s.jobs[t]);
  }

  lemma DropEmbeds(s: State, d: State, t: nat, h: nat, id: nat)
    requires Counted(s, h) && d == Drop(s, t, h, Embed(h, id)) && Inv(d)
    ensures var s' := Settle(d, t);
      t !in s'.jobs && s'.objects == s.objects[h := EndPoint(id, EXTENDED_PORT)] && GivenUp(s, s', s.objects[h])
  {
    DropLowers(s, t, h, Embed(h, id));
    EmbedFinishes(d, t, h, id);
    DropGivesUp(s, d, Settle(d, t), t, s.objects[h], Embed(h, id));
  }

  lemma EmbedFinishes(s: State, t: nat, h: nat, id: nat)
    requires Inv(s) && t in s.jobs && (s.jobs[t].Erase? || s.jobs[t].Finish?) && s.jobs[t].then_ == Embed(h, id)
    ensures var s' := Settle(s, t);
      && t !in s'.jobs && s'.objects == s.objects[h := EndPoint(id, EXTENDED_PORT)] && SameCounts(s, s')
      && s'.taken == if s.jobs[t].Erase? then s.taken - {s.jobs[t].id} else s.taken
  {
    var s1 := s;
    if s.jobs[t].Erase? {
      s1 := ReleaseGivesBack(s, t);
    }
    assert JobOk(s1, t);
    SettleStep(s1, t);
    assert Resume(s1, t, Finish(Embed(h, id)))
        == s1.(jobs := s1.jobs - {t}, objects := s1.objects[h := EndPoint(id, EXTENDED_PORT)]);
  }

  /** The resource that `dedup` settles on: a live one with the address, or else the new one. */
  ghost function Settled(s: State, address: nat, id: nat): nat {
    if address in s.interned && s.interned[address] in s.pool && s.pool[s.interned[address]].refs != 0
    then s.interned[address] else id
  }

  /** Creating an extended endpoint in an object makes the object denote a resource with that address. */
  lemma CreateDenotes(s: State, t: nat, h: nat, address: nat, id: nat)
    requires Inv(s) && Enabled(s, Create(t, h, address, id))
    ensures var s', first := Settle(Apply(s, Create(t, h, address, id)), t), Settled(s, address, id);
      && t !in s'.jobs && s'.objects == s.objects[h := EndPoint(first, EXTENDED_PORT)]
      && first in s'.pool && s'.pool[first].address == address
  {
    var s1 := Apply(s, Create(t, h, address, id));
    CreateKeepsInv(s, t, h, address, id);
    assert JobOk(s1, t);
    SettleStep(s1, t);
    DedupSettlesOn(s, t, h, address, id);
    var s2 := Resume(s1, t, s1.jobs[t]);
    DedupKeepsInv(s1, t);
    EmbedSettles(s2, t, h, Settled(s, address, id));
  }

  lemma DedupSettlesOn(s: State, t: nat, h: nat, address: nat, id: nat)
    requires Inv(s) && Enabled(s, Create(t, h, address, id))
    ensures var s1 := Created(s, t, h, address, id);
      var s2, first := Resume(s1, t, s1.jobs[t]), Settled(s, address, id);
      && t in s2.jobs && s2.jobs[t] == Embedding(h, first) && s2.objects == s.objects
      && first in s2.pool && s2.pool[first].address == address
  {
    NobodyHolds(s, id);
    if address in s.interned {
      assert AddressOk(s, address);
    }
  }
}
