/**
 Model of the reference-counted part of `EndPoint` (turbo/base/endpoint.cc) and of
 the pool of extended endpoints behind it
 (turbo/base/internal/extended_endpoint.hpp).

 Any number of threads construct, copy, assign, reset, destroy and parse endpoints.
 Each access to a reference count and each critical section of the global set is one
 atomic step. An endpoint object is used by one thread at a time, except that it may
 be read by several; the pool is shared by all.
 */
module EndPointRefs {
  import opened Common

  datatype EndPoint = EndPoint(ip: nat, port: int)

  const ANY: EndPoint := EndPoint(0, 0)

  predicate Extended(e: EndPoint) {
    e.port == EXTENDED_PORT
  }

  predicate Denotes(e: EndPoint, id: nat) {
    Extended(e) && e.ip == id
  }

  /** An extended endpoint in the pool: its reference count, its socket address, and whether its family is set. */
  datatype Resource = Resource(refs: int, address: nat, family: bool)

  /** What remains to be done once an object has been reset. */
  datatype Then =
    | Nothing
    | Embed(h: nat, id: nat)  // embed_to: make h denote id
    | Copy(h: nat, src: nat)  // operator=: copy src into h

  /** What a thread is in the middle of. */
  datatype Job =
    | Insert(h: nat, id: nat)       // create: id is new; about to look for an equal one in the global set
    | Embedding(h: nat, id: nat)    // embed_to: about to reset h
    | Erase(id: nat, then_: Then)   // dec_ref: the count of id reached zero; about to erase it from the global set
    | Return(id: nat, then_: Then)  // dec_ref: about to return id to the pool
    | Finish(then_: Then)

  datatype State = State(
    objects: map<nat, EndPoint>,  // the endpoint objects
    pool: map<nat, Resource>,     // every resource ever handed out
    taken: set<nat>,              // those not returned to the pool
    interned: map<nat, nat>,      // the global set: address to resource
    jobs: map<nat, Job>           // the threads inside an operation
  )

  datatype Action =
    | New(t: nat, h: nat, e: EndPoint)
    | CopyNew(t: nat, h: nat, src: nat)
    | Assign(t: nat, h: nat, src: nat)
    | Reset(t: nat, h: nat)
    | Destroy(t: nat, h: nat)
    | Create(t: nat, h: nat, address: nat, id: nat)
    | Parse(t: nat, h: nat, ip: Option<nat>, port: Option<int>)
    | Continue(t: nat)

  const START: State := State(map[], map[], {}, map[], map[])

  // ---- Steps ----

  function SetJob(s: State, t: nat, job: Job): State {
    s.(jobs := s.jobs[t := job])
  }

  function Count(s: State, id: nat, delta: int): State
    requires id in s.pool
  {
    s.(pool := s.pool[id := s.pool[id].(refs := s.pool[id].refs + delta)])
  }

  /** `EndPoint::reset` of `h` by thread `t`, which then goes on with `next`. */
  function Drop(s: State, t: nat, h: nat, next: Then): State
    requires h in s.objects
  {
    var e := s.objects[h];
    var cleared := s.(objects := s.objects[h := ANY]);
    if Extended(e) && e.ip in s.pool then
      SetJob(Count(cleared, e.ip, -1), t, if s.pool[e.ip].refs == 1 then Erase(e.ip, next) else Finish(next))
    else
      SetJob(cleared, t, Finish(next))
  }

  /** `set_endpoint`. */
  function SetEndPoint(s: State, h: nat, e: EndPoint): State {
    if Extended(e) then
      if e.ip in s.pool then Count(s.(objects := s.objects[h := e]), e.ip, 1)
      else s.(objects := s.objects[h := ANY])
    else s.(objects := s.objects[h := e])
  }

  /**
   What is in an object after a function that reads an IPv4 endpoint from text or from
   a host name has stored the fields it got to. It does so without resetting the
   object, and also when it returns an error.
   */
  function Stored(e: EndPoint, ip: Option<nat>, port: Option<int>): EndPoint {
    EndPoint(if ip.Some? then ip.value else e.ip, if port.Some? then port.value else e.port)
  }

  /** `new_extended_endpoint`: a resource fresh from the pool, with one reference held by its maker. */
  function Created(s: State, t: nat, h: nat, address: nat, id: nat): State {
    SetJob(s.(pool := s.pool[id := Resource(1, address, true)], taken := s.taken + {id}), t, Insert(h, id))
  }

  /** `dedup`, when the global set holds a live endpoint `first` equal to the new `id`. */
  function Share(s: State, t: nat, h: nat, id: nat, first: nat): State
    requires id in s.pool && first in s.pool
  {
    var shared := Count(s, first, 1);
    SetJob(shared.(pool := shared.pool[id := shared.pool[id].(refs := 0, family := false)], taken := s.taken - {id}),
           t, Embedding(h, first))
  }

  /** `dedup`, when it does not, or holds one whose count has dropped to zero. */
  function Publish(s: State, t: nat, h: nat, id: nat): State
    requires id in s.pool
  {
    SetJob(s.(interned := s.interned[s.pool[id].address := id]), t, Embedding(h, id))
  }

  function Dedup(s: State, t: nat, h: nat, id: nat): State
    requires id in s.pool
  {
    var address := s.pool[id].address;
    if address in s.interned && s.interned[address] in s.pool && s.pool[s.interned[address]].refs != 0 then
      Share(s, t, h, id, s.interned[address])
    else
      Publish(s, t, h, id)
  }

  function Resume(s: State, t: nat, job: Job): State {
    match job
    case Insert(h, id) => if id in s.pool then Dedup(s, t, h, id) else s
    case Embedding(h, id) => if h in s.objects then Drop(s, t, h, Embed(h, id)) else s
    case Erase(id, next) =>
      var address := if id in s.pool then s.pool[id].address else 0;
      var erased := if address in s.interned && s.interned[address] == id then s.interned - {address} else s.interned;
      SetJob(s.(interned := erased), t, Return(id, next))
    case Return(id, next) =>
      var cleared := if id in s.pool then s.pool[id := s.pool[id].(family := false)] else s.pool;
      SetJob(s.(pool := cleared, taken := s.taken - {id}), t, Finish(next))
    case Finish(next) =>
      var idle := s.(jobs := s.jobs - {t});
      match next
      case Nothing => idle
      case Embed(h, id) => idle.(objects := idle.objects[h := EndPoint(id, EXTENDED_PORT)])
      case Copy(h, src) => if src in s.objects then SetEndPoint(idle, h, s.objects[src]) else idle
  }

  // ---- Which steps may be taken ----

  function ThenWrites(next: Then): set<nat> {
    match next
    case Nothing => {}
    case Embed(h, _) => {h}
    case Copy(h, _) => {h}
  }

  /** The object the job is changing, if any. */
  function Writes(job: Job): set<nat> {
    match job
    case Insert(h, _) => {h}
    case Embedding(h, _) => {h}
    case Erase(_, next) => ThenWrites(next)
    case Return(_, next) => ThenWrites(next)
    case Finish(next) => ThenWrites(next)
  }

  function ThenReads(next: Then): set<nat> {
    match next
    case Copy(_, src) => {src}
    case _ => {}
  }

  function Reads(job: Job): set<nat> {
    match job
    case Erase(_, next) => ThenReads(next)
    case Return(_, next) => ThenReads(next)
    case Finish(next) => ThenReads(next)
    case _ => {}
  }

  predicate MayRead(s: State, h: nat) {
    h in s.objects && forall t :: t in s.jobs ==> h !in Writes(s.jobs[t])
  }

  predicate MayWrite(s: State, h: nat) {
    MayRead(s, h) && forall t :: t in s.jobs ==> h !in Reads(s.jobs[t])
  }

  /**
   A thread begins an operation when it is in none, on objects no other thread is
   using; the pool hands out only resources that are not taken.
   */
  predicate Enabled(s: State, a: Action) {
    match a
    case New(t, h, e) => t !in s.jobs && h !in s.objects && !Extended(e)
    case CopyNew(t, h, src) => t !in s.jobs && h !in s.objects && MayRead(s, src)
    case Assign(t, h, src) => t !in s.jobs && MayWrite(s, h) && MayRead(s, src)
    case Reset(t, h) => t !in s.jobs && MayWrite(s, h)
    case Destroy(t, h) => t !in s.jobs && MayWrite(s, h)
    case Create(t, h, _, id) => t !in s.jobs && MayWrite(s, h) && id !in s.taken
    case Parse(t, h, _, _) => t !in s.jobs && MayWrite(s, h)
    case Continue(t) => t in s.jobs
  }

  function Apply(s: State, a: Action): State
    requires Enabled(s, a)
  {
    match a
    case New(t, h, e) => s.(objects := s.objects[h := e])
    case CopyNew(t, h, src) => SetEndPoint(s, h, s.objects[src])
    case Assign(t, h, src) => Drop(s, t, h, Copy(h, src))
    case Reset(t, h) => Drop(s, t, h, Nothing)
    case Destroy(t, h) => var d := Drop(s, t, h, Nothing); d.(objects := d.objects - {h})
    case Create(t, h, address, id) => Created(s, t, h, address, id)
    case Parse(t, h, ip, port) => s.(objects := s.objects[h := Stored(s.objects[h], ip, port)])
    case Continue(t) => Resume(s, t, s.jobs[t])
  }

  function Exec(s: State, acts: seq<Action>): Option<State>
    decreases |acts|
  {
    if acts == [] then Some(s)
    else if Enabled(s, acts[0]) then Exec(Apply(s, acts[0]), acts[1..])
    else None
  }

  // ---- Who holds a reference ----

  /** The objects that denote `id`. */
  function Denoting(objects: map<nat, EndPoint>, id: nat): set<nat> {
    set h | h in objects && Denotes(objects[h], id)
  }

  predicate ThenHolds(next: Then, id: nat) {
    next.Embed? && next.id == id
  }

  predicate Holds(job: Job, id: nat) {
    match job
    case Insert(_, i) => i == id
    case Embedding(_, i) => i == id
    case Erase(_, next) => ThenHolds(next, id)
    case Return(_, next) => ThenHolds(next, id)
    case Finish(next) => ThenHolds(next, id)
  }

  /** The threads about to make an object denote `id`. */
  function Holding(jobs: map<nat, Job>, id: nat): set<nat> {
    set t | t in jobs && Holds(jobs[t], id)
  }

  function Refs(s: State, id: nat): nat {
    |Denoting(s.objects, id)| + |Holding(s.jobs, id)|
  }

  function One(b: bool): nat {
    if b then 1 else 0
  }

  lemma DenotingAfter(objects: map<nat, EndPoint>, h: nat, e: EndPoint, id: nat)
    ensures |Denoting(objects[h := e], id)| == |Denoting(objects - {h}, id)| + One(Denotes(e, id))
  {
    var rest, all := Denoting(objects - {h}, id), Denoting(objects[h := e], id);
    if Denotes(e, id) {
      assert all == rest + {h};
    } else {
      assert all == rest;
    }
  }

  lemma DenotingUpdate(objects: map<nat, EndPoint>, h: nat, e: EndPoint, id: nat)
    ensures |Denoting(objects[h := e], id)| == |Denoting(objects - {h}, id)| + One(Denotes(e, id))
    ensures h in objects ==> |Denoting(objects, id)| == |Denoting(objects - {h}, id)| + One(Denotes(objects[h], id))
    ensures h !in objects ==> Denoting(objects, id) == Denoting(objects - {h}, id)
  {
    DenotingAfter(objects, h, e, id);
    if h in objects {
      DenotingAfter(objects, h, objects[h], id);
      assert objects[h := objects[h]] == objects;
    } else {
      assert objects - {h} == objects;
    }
  }

  lemma HoldingAfter(jobs: map<nat, Job>, t: nat, job: Job, id: nat)
    ensures |Holding(jobs[t := job], id)| == |Holding(jobs - {t}, id)| + One(Holds(job, id))
  {
    var rest, all := Holding(jobs - {t}, id), Holding(jobs[t := job], id);
    if Holds(job, id) {
      assert all == rest + {t};
    } else {
      assert all == rest;
    }
  }

  lemma HoldingUpdate(jobs: map<nat, Job>, t: nat, job: Job, id: nat)
    ensures |Holding(jobs[t := job], id)| == |Holding(jobs - {t}, id)| + One(Holds(job, id))
    ensures t in jobs ==> |Holding(jobs, id)| == |Holding(jobs - {t}, id)| + One(Holds(jobs[t], id))
    ensures t !in jobs ==> Holding(jobs, id) == Holding(jobs - {t}, id)
  {
    HoldingAfter(jobs, t, job, id);
    if t in jobs {
      HoldingAfter(jobs, t, jobs[t], id);
      assert jobs[t := jobs[t]] == jobs;
    } else {
      assert jobs - {t} == jobs;
    }
  }

  // ---- The invariant ----

  /** The job is giving `id` back to the pool. */
  predicate Releasing(job: Job, id: nat) {
    (job.Erase? || job.Return?) && job.id == id
  }

  ghost predicate IsReleased(s: State, id: nat) {
    exists t :: t in s.jobs && Releasing(s.jobs[t], id)
  }

  predicate Interned(s: State, id: nat) {
    id in s.pool && s.pool[id].address in s.interned && s.interned[s.pool[id].address] == id
  }

  /** The count of a resource is the number of its holders, and it is taken while held or being released. */
  ghost predicate ResourceOk(s: State, id: nat)
    requires id in s.pool
  {
    && s.pool[id].refs == Refs(s, id)
    && (id in s.taken <==> s.pool[id].refs > 0 || IsReleased(s, id))
    && (id in s.taken <==> s.pool[id].family)
  }

  /** An object that denotes a resource denotes the interned one. */
  predicate ObjectOk(s: State, h: nat)
    requires h in s.objects
  {
    Extended(s.objects[h]) ==> Interned(s, s.objects[h].ip)
  }

  /** An interned resource is taken and has not left the global set. */
  predicate AddressOk(s: State, address: nat)
    requires address in s.interned
  {
    var id := s.interned[address];
    id in s.pool && id in s.taken && s.pool[id].address == address
  }

  predicate JobOk(s: State, t: nat)
    requires t in s.jobs
  {
    var job := s.jobs[t];
    && Writes(job) <= s.objects.Keys && Reads(job) <= s.objects.Keys
    && (job.Insert? ==> job.id in s.pool && s.pool[job.id].refs == 1 && !Interned(s, job.id))
    && (job.Embedding? ==> Interned(s, job.id))
    && (job.Erase? || job.Return? ==> job.id in s.pool && job.id in s.taken && s.pool[job.id].refs == 0)
    && (job.Return? ==> !Interned(s, job.id))
    && (job.Erase? || job.Return? || job.Finish? ==>
          && (forall h :: h in Writes(job) ==> !Extended(s.objects[h]))
          && (job.then_.Embed? ==> Interned(s, job.then_.id)))
  }

  /** No two threads change the same object or release the same resource. */
  predicate Apart(s: State, t: nat, u: nat)
    requires t in s.jobs && u in s.jobs
  {
    && Writes(s.jobs[t]) !! Writes(s.jobs[u])
    && ((s.jobs[t].Erase? || s.jobs[t].Return?) ==> !Releasing(s.jobs[u], s.jobs[t].id))
  }

  ghost predicate ResourcesOk(s: State) {
    && (forall id :: id in s.pool ==> ResourceOk(s, id))
    && s.taken <= s.pool.Keys
  }

  predicate NamesOk(s: State) {
    && (forall h :: h in s.objects ==> ObjectOk(s, h))
    && (forall a :: a in s.interned ==> AddressOk(s, a))
  }

  predicate JobsOk(s: State) {
    && (forall t :: t in s.jobs ==> JobOk(s, t))
    && (forall t, u :: t in s.jobs && u in s.jobs && t != u ==> Apart(s, t, u))
  }

  ghost predicate Inv(s: State) {
    ResourcesOk(s) && NamesOk(s) && JobsOk(s)
  }

  /** Being held by an object or a job makes the count positive. */
  lemma HeldIsCounted(s: State, id: nat)
    requires id in s.pool && s.pool[id].refs == Refs(s, id)
    ensures forall h :: h in s.objects && Denotes(s.objects[h], id) ==> s.pool[id].refs > 0
    ensures forall t :: t in s.jobs && Holds(s.jobs[t], id) ==> s.pool[id].refs > 0
  {
    forall h | h in s.objects && Denotes(s.objects[h], id)
      ensures s.pool[id].refs > 0
    {
      assert h in Denoting(s.objects, id);
    }
    forall t | t in s.jobs && Holds(s.jobs[t], id)
      ensures s.pool[id].refs > 0
    {
      assert t in Holding(s.jobs, id);
    }
  }

  // ---- Every step keeps the invariant ----

  /** Thread `t` may reset `h` and go on with `next`. */
  ghost predicate MayDrop(s: State, t: nat, h: nat, next: Then) {
    && Inv(s) && h in s.objects
    && (next.Embed? ==> t in s.jobs && s.jobs[t] == Embedding(h, next.id) && next.h == h)
    && (!next.Embed? ==> t !in s.jobs && MayWrite(s, h))
    && (next.Copy? ==> next.h == h && next.src in s.objects)
  }

  lemma DropCounts(s: State, t: nat, h: nat, next: Then, id: nat)
    requires h in s.objects && id in s.pool
    requires if next.Embed? then t in s.jobs && s.jobs[t] == Embedding(h, next.id) else t !in s.jobs
    ensures Refs(Drop(s, t, h, next), id) == Refs(s, id) - One(Denotes(s.objects[h], id))
    ensures Drop(s, t, h, next).pool[id] == s.pool[id].(refs := s.pool[id].refs - One(Denotes(s.objects[h], id)))
  {
    DenotingUpdate(s.objects, h, ANY, id);
    HoldingUpdate(s.jobs, t, Drop(s, t, h, next).jobs[t], id);
  }

  lemma DropResource(s: State, t: nat, h: nat, next: Then, id: nat)
    requires MayDrop(s, t, h, next) && id in s.pool
    ensures ResourceOk(Drop(s, t, h, next), id)
  {
    var s' := Drop(s, t, h, next);
    assert ResourceOk(s, id);
    DropCounts(s, t, h, next, id);
    HeldIsCounted(s, id);
    if IsReleased(s, id) {
      var u :| u in s.jobs && Releasing(s.jobs[u], id);
      assert u in s'.jobs && Releasing(s'.jobs[u], id);
    } else if Denotes(s.objects[h], id) && s.pool[id].refs == 1 {
      assert Releasing(s'.jobs[t], id);
    } else {
      forall u | u in s'.jobs
        ensures !Releasing(s'.jobs[u], id)
      {
        assert u != t ==> !Releasing(s.jobs[u], id);
      }
    }
  }

  /** What `h` denotes, if anything, is interned, taken and counted. */
  predicate Counted(s: State, h: nat) {
    h in s.objects && (Extended(s.objects[h]) ==>
      var id := s.objects[h].ip; Interned(s, id) && id in s.taken && s.pool[id].refs > 0)
  }

  lemma ObjectIsCounted(s: State, h: nat)
    requires Inv(s) && h in s.objects
    ensures Counted(s, h)
  {
    if Extended(s.objects[h]) {
      var id := s.objects[h].ip;
      assert ObjectOk(s, h) && ResourceOk(s, id) && AddressOk(s, s.pool[id].address);
      HeldIsCounted(s, id);
    }
  }

  lemma NobodyElseWrites(s: State, t: nat, h: nat, next: Then, u: nat)
    requires MayDrop(s, t, h, next) && u in s.jobs && u != t
    ensures h !in Writes(s.jobs[u])
  {
    if next.Embed? {
      assert h in Writes(s.jobs[t]) && Apart(s, t, u);
    }
  }

  lemma DropOwnJob(s: State, t: nat, h: nat, next: Then)
    requires Counted(s, h) && ThenWrites(next) <= {h} && ThenReads(next) <= s.objects.Keys
    requires next.Embed? ==> Interned(s, next.id)
    ensures JobOk(Drop(s, t, h, next), t)
  {
  }

  lemma DropOtherJob(s: State, t: nat, h: nat, next: Then, u: nat)
    requires Counted(s, h) && u in s.jobs && u != t && JobOk(s, u) && h !in Writes(s.jobs[u])
    ensures JobOk(Drop(s, t, h, next), u)
  {
  }

  lemma DropApart(s: State, t: nat, h: nat, next: Then, u: nat)
    requires Counted(s, h) && u in s.jobs && u != t && JobOk(s, u) && h !in Writes(s.jobs[u])
    requires ThenWrites(next) <= {h}
    ensures Apart(Drop(s, t, h, next), t, u) && Apart(Drop(s, t, h, next), u, t)
  {
  }

  lemma DropNames(s: State, t: nat, h: nat, next: Then)
    requires MayDrop(s, t, h, next)
    ensures NamesOk(Drop(s, t, h, next))
  {
    var s' := Drop(s, t, h, next);
    forall k | k in s'.objects
      ensures ObjectOk(s', k)
    {
      assert k in s.objects && ObjectOk(s, k);
    }
    forall a | a in s'.interned
      ensures AddressOk(s', a)
    {
      assert AddressOk(s, a);
    }
  }

  lemma DropJobs(s: State, t: nat, h: nat, next: Then)
    requires MayDrop(s, t, h, next)
    ensures JobsOk(Drop(s, t, h, next))
  {
    var s' := Drop(s, t, h, next);
    ObjectIsCounted(s, h);
    if next.Embed? {
      assert JobOk(s, t);
    }
    DropOwnJob(s, t, h, next);
    forall u | u in s.jobs && u != t
      ensures JobOk(s', u) && Apart(s', t, u) && Apart(s', u, t)
    {
      NobodyElseWrites(s, t, h, next, u);
      DropOtherJob(s, t, h, next, u);
      DropApart(s, t, h, next, u);
    }
    forall u, v | u in s'.jobs && v in s'.jobs && u != v
      ensures Apart(s', u, v)
    {
      if u != t && v != t {
        assert Apart(s, u, v);
      }
    }
  }

  /** Resetting an object keeps the invariant. */
  lemma DropKeepsInv(s: State, t: nat, h: nat, next: Then)
    requires MayDrop(s, t, h, next)
    ensures Inv(Drop(s, t, h, next))
  {
    forall id | id in Drop(s, t, h, next).pool
      ensures ResourceOk(Drop(s, t, h, next), id)
    {
      DropResource(s, t, h, next, id);
    }
    DropNames(s, t, h, next);
    DropJobs(s, t, h, next);
  }

  /** `e` may be stored into `h`, which denotes nothing and which no thread is changing. */
  ghost predicate MaySet(s: State, h: nat, e: EndPoint) {
    && Inv(s) && (h in s.objects ==> !Extended(s.objects[h]))
    && (forall t :: t in s.jobs ==> h !in Writes(s.jobs[t]))
    && (Extended(e) ==> Interned(s, e.ip) && s.pool[e.ip].refs > 0)
  }

  lemma SetResource(s: State, h: nat, e: EndPoint, id: nat)
    requires MaySet(s, h, e) && id in s.pool
    ensures ResourceOk(SetEndPoint(s, h, e), id)
  {
    var s' := SetEndPoint(s, h, e);
    assert ResourceOk(s, id);
    DenotingUpdate(s.objects, h, e, id);
    assert IsReleased(s', id) <==> IsReleased(s, id);
  }

  lemma SetOtherJob(s: State, h: nat, e: EndPoint, u: nat)
    requires u in s.jobs && JobOk(s, u) && h !in Writes(s.jobs[u])
    requires Extended(e) ==> Interned(s, e.ip) && s.pool[e.ip].refs > 0
    ensures JobOk(SetEndPoint(s, h, e), u)
  {
  }

  lemma SetResources(s: State, h: nat, e: EndPoint)
    requires MaySet(s, h, e)
    ensures ResourcesOk(SetEndPoint(s, h, e))
  {
    forall id | id in SetEndPoint(s, h, e).pool
      ensures ResourceOk(SetEndPoint(s, h, e), id)
    {
      SetResource(s, h, e, id);
    }
  }

  lemma SetNames(s: State, h: nat, e: EndPoint)
    requires MaySet(s, h, e)
    ensures NamesOk(SetEndPoint(s, h, e))
  {
  }

  lemma SetJobs(s: State, h: nat, e: EndPoint)
    requires MaySet(s, h, e)
    ensures JobsOk(SetEndPoint(s, h, e))
  {
    var s' := SetEndPoint(s, h, e);
    forall u | u in s'.jobs
      ensures JobOk(s', u)
    {
      SetOtherJob(s, h, e, u);
    }
    forall u, v | u in s'.jobs && v in s'.jobs && u != v
      ensures Apart(s', u, v)
    {
      assert Apart(s, u, v);
    }
  }

  /** `set_endpoint` into an object that denotes nothing keeps the invariant. */
  lemma SetKeepsInv(s: State, h: nat, e: EndPoint)
    requires MaySet(s, h, e)
    ensures Inv(SetEndPoint(s, h, e))
  {
    SetResources(s, h, e);
    SetNames(s, h, e);
    SetJobs(s, h, e);
  }

  /** A thread whose operation is complete leaves it. */
  lemma IdleKeepsInv(s: State, t: nat)
    requires Inv(s) && t in s.jobs && s.jobs[t].Finish? && !s.jobs[t].then_.Embed?
    ensures Inv(s.(jobs := s.jobs - {t}))
  {
    var s' := s.(jobs := s.jobs - {t});
    forall id | id in s'.pool
      ensures ResourceOk(s', id)
    {
      assert ResourceOk(s, id);
      HoldingUpdate(s.jobs, t, s.jobs[t], id);
      if IsReleased(s, id) {
        var u :| u in s.jobs && Releasing(s.jobs[u], id);
        assert u in s'.jobs && Releasing(s'.jobs[u], id);
      }
    }
    forall k | k in s'.objects ensures ObjectOk(s', k) { assert ObjectOk(s, k); }
    forall a | a in s'.interned ensures AddressOk(s', a) { assert AddressOk(s, a); }
    forall u | u in s'.jobs ensures JobOk(s', u) { assert JobOk(s, u); }
    forall u, v | u in s'.jobs && v in s'.jobs && u != v ensures Apart(s', u, v) { assert Apart(s, u, v); }
  }

  /** `embed_to` stores the resource: the reference passes from the thread to the object. */
  lemma EmbedKeepsInv(s: State, t: nat, h: nat, id0: nat)
    requires Inv(s) && t in s.jobs && s.jobs[t] == Finish(Embed(h, id0))
    ensures Inv(Resume(s, t, s.jobs[t]))
  {
    var s' := Resume(s, t, s.jobs[t]);
    var e := EndPoint(id0, EXTENDED_PORT);
    assert JobOk(s, t) && h in Writes(s.jobs[t]);
    assert s'.objects == s.objects[h := e] && s'.jobs == s.jobs - {t};
    forall id | id in s'.pool
      ensures ResourceOk(s', id)
    {
      assert ResourceOk(s, id);
      HoldingUpdate(s.jobs, t, s.jobs[t], id);
      DenotingUpdate(s.objects, h, e, id);
      if IsReleased(s, id) {
        var u :| u in s.jobs && Releasing(s.jobs[u], id);
        assert u in s'.jobs && Releasing(s'.jobs[u], id);
      }
    }
    forall k | k in s'.objects ensures ObjectOk(s', k) { assert k in s.objects && ObjectOk(s, k); }
    forall a | a in s'.interned ensures AddressOk(s', a) { assert AddressOk(s, a); }
    forall u | u in s'.jobs
      ensures JobOk(s', u)
    {
      assert JobOk(s, u) && Apart(s, t, u);
      assert s'.objects.Keys == s.objects.Keys;
    }
    forall u, v | u in s'.jobs && v in s'.jobs && u != v ensures Apart(s', u, v) { assert Apart(s, u, v); }
  }

  lemma EraseForgets(s: State, t: nat, id: nat)
    requires Inv(s) && t in s.jobs && s.jobs[t].Erase?
    ensures Interned(Resume(s, t, s.jobs[t]), id) <==> Interned(s, id) && id != s.jobs[t].id
  {
  }

  lemma EraseResource(s: State, t: nat, id: nat)
    requires Inv(s) && t in s.jobs && s.jobs[t].Erase? && id in s.pool
    ensures ResourceOk(Resume(s, t, s.jobs[t]), id)
  {
    var s' := Resume(s, t, s.jobs[t]);
    assert ResourceOk(s, id);
    HoldingUpdate(s.jobs, t, s'.jobs[t], id);
    if IsReleased(s, id) {
      var u :| u in s.jobs && Releasing(s.jobs[u], id);
      assert u in s'.jobs && Releasing(s'.jobs[u], id);
    }
    if IsReleased(s', id) {
      var u :| u in s'.jobs && Releasing(s'.jobs[u], id);
      assert u in s.jobs && Releasing(s.jobs[u], id);
    }
  }

  lemma EraseJob(s: State, t: nat, u: nat)
    requires Inv(s) && t in s.jobs && s.jobs[t].Erase? && u in s.jobs
    ensures JobOk(Resume(s, t, s.jobs[t]), u)
  {
    var dead := s.jobs[t].id;
    assert JobOk(s, u) && JobOk(s, t) && ResourceOk(s, dead);
    HeldIsCounted(s, dead);
    forall id
      ensures Interned(Resume(s, t, s.jobs[t]), id) <==> Interned(s, id) && id != dead
    {
      EraseForgets(s, t, id);
    }
  }

  lemma EraseNames(s: State, t: nat)
    requires Inv(s) && t in s.jobs && s.jobs[t].Erase?
    ensures NamesOk(Resume(s, t, s.jobs[t]))
  {
    var s' := Resume(s, t, s.jobs[t]);
    assert JobOk(s, t);
    forall k | k in s'.objects
      ensures ObjectOk(s', k)
    {
      ObjectIsCounted(s, k);
      if Extended(s.objects[k]) {
        EraseForgets(s, t, s.objects[k].ip);
      }
    }
    forall a | a in s'.interned
      ensures AddressOk(s', a)
    {
      assert AddressOk(s, a);
    }
  }

  lemma EraseJobs(s: State, t: nat)
    requires Inv(s) && t in s.jobs && s.jobs[t].Erase?
    ensures JobsOk(Resume(s, t, s.jobs[t]))
  {
    var s' := Resume(s, t, s.jobs[t]);
    forall u | u in s'.jobs
      ensures JobOk(s', u)
    {
      EraseJob(s, t, u);
    }
    forall u, v | u in s'.jobs && v in s'.jobs && u != v
      ensures Apart(s', u, v)
    {
      assert Apart(s, u, v);
    }
  }

  /** Erasing a dead resource from the global set keeps the invariant. */
  lemma EraseKeepsInv(s: State, t: nat)
    requires Inv(s) && t in s.jobs && s.jobs[t].Erase?
    ensures Inv(Resume(s, t, s.jobs[t]))
  {
    forall id | id in s.pool
      ensures ResourceOk(Resume(s, t, s.jobs[t]), id)
    {
      EraseResource(s, t, id);
    }
    EraseNames(s, t);
    EraseJobs(s, t);
  }

  ghost predicate OnlyReleaser(s: State, t: nat) {
    && t in s.jobs && s.jobs[t].Return? && JobOk(s, t)
    && (forall u :: u in s.jobs && u != t ==> !Releasing(s.jobs[u], s.jobs[t].id))
  }

  lemma ReturnResource(s: State, t: nat, id: nat)
    requires OnlyReleaser(s, t) && id in s.pool && ResourceOk(s, id)
    ensures ResourceOk(Resume(s, t, s.jobs[t]), id)
  {
    var s' := Resume(s, t, s.jobs[t]);
    HoldingUpdate(s.jobs, t, s'.jobs[t], id);
    if IsReleased(s, id) && id != s.jobs[t].id {
      var u :| u in s.jobs && Releasing(s.jobs[u], id);
      assert u in s'.jobs && Releasing(s'.jobs[u], id);
    }
    if IsReleased(s', id) {
      var u :| u in s'.jobs && Releasing(s'.jobs[u], id);
      assert u in s.jobs && Releasing(s.jobs[u], id);
    }
  }

  lemma ReturnNames(s: State, t: nat)
    requires Inv(s) && t in s.jobs && s.jobs[t].Return?
    ensures NamesOk(Resume(s, t, s.jobs[t]))
  {
    var s' := Resume(s, t, s.jobs[t]);
    assert JobOk(s, t);
    forall k | k in s'.objects
      ensures ObjectOk(s', k)
    {
      assert ObjectOk(s, k);
    }
    forall a | a in s'.interned
      ensures AddressOk(s', a)
    {
      assert AddressOk(s, a);
    }
  }

  lemma ReturnOtherJob(s: State, t: nat, u: nat)
    requires OnlyReleaser(s, t) && u in s.jobs && u != t && JobOk(s, u)
    ensures JobOk(Resume(s, t, s.jobs[t]), u)
  {
  }

  lemma ReturnOwnJob(s: State, t: nat)
    requires t in s.jobs && s.jobs[t].Return? && JobOk(s, t)
    ensures JobOk(Resume(s, t, s.jobs[t]), t)
  {
  }

  lemma ReturnJobs(s: State, t: nat)
    requires JobsOk(s) && OnlyReleaser(s, t)
    ensures JobsOk(Resume(s, t, s.jobs[t]))
  {
    var s' := Resume(s, t, s.jobs[t]);
    ReturnOwnJob(s, t);
    forall u | u in s.jobs && u != t
      ensures JobOk(s', u)
    {
      ReturnOtherJob(s, t, u);
    }
    forall u, v | u in s'.jobs && v in s'.jobs && u != v
      ensures Apart(s', u, v)
    {
      assert Apart(s, u, v);
    }
  }

  /** Returning a dead resource to the pool keeps the invariant. */
  lemma ReturnKeepsInv(s: State, t: nat)
    requires Inv(s) && t in s.jobs && s.jobs[t].Return?
    ensures Inv(Resume(s, t, s.jobs[t]))
  {
    forall u | u in s.jobs && u != t
      ensures !Releasing(s.jobs[u], s.jobs[t].id)
    {
      assert Apart(s, t, u);
    }
    forall id | id in s.pool
      ensures ResourceOk(Resume(s, t, s.jobs[t]), id)
    {
      ReturnResource(s, t, id);
    }
    ReturnNames(s, t);
    ReturnJobs(s, t);
  }

  /** A new object that denotes nothing keeps the invariant. */
  lemma NewKeepsInv(s: State, h: nat, e: EndPoint)
    requires Inv(s) && h !in s.objects && !Extended(e)
    ensures Inv(s.(objects := s.objects[h := e]))
  {
    forall t | t in s.jobs
      ensures h !in Writes(s.jobs[t])
    {
      assert JobOk(s, t);
    }
    SetKeepsInv(s, h, e);
  }

  /** The end of an object that denotes nothing and that no thread is using keeps the invariant. */
  lemma RemoveKeepsInv(s: State, h: nat)
    requires Inv(s) && h in s.objects && !Extended(s.objects[h])
    requires forall t :: t in s.jobs ==> h !in Writes(s.jobs[t]) && h !in Reads(s.jobs[t])
    ensures Inv(s.(objects := s.objects - {h}))
  {
    var s' := s.(objects := s.objects - {h});
    forall id | id in s'.pool
      ensures ResourceOk(s', id)
    {
      assert ResourceOk(s, id);
      DenotingUpdate(s.objects, h, ANY, id);
      assert IsReleased(s', id) <==> IsReleased(s, id);
    }
    forall k | k in s'.objects ensures ObjectOk(s', k) { assert ObjectOk(s, k); }
    forall a | a in s'.interned ensures AddressOk(s', a) { assert AddressOk(s, a); }
    forall u | u in s'.jobs ensures JobOk(s', u) { assert JobOk(s, u); }
    forall u, v | u in s'.jobs && v in s'.jobs && u != v ensures Apart(s', u, v) { assert Apart(s, u, v); }
  }

  lemma CreateResource(s: State, t: nat, h: nat, address: nat, id0: nat, id: nat)
    requires Inv(s) && t !in s.jobs && id0 !in s.taken && id in Created(s, t, h, address, id0).pool
    ensures ResourceOk(Created(s, t, h, address, id0), id)
  {
    var s' := Created(s, t, h, address, id0);
    NobodyHolds(s, id0);
    HoldingUpdate(s.jobs, t, s'.jobs[t], id);
    assert id != id0 ==> ResourceOk(s, id);
    if IsReleased(s, id) {
      var u :| u in s.jobs && Releasing(s.jobs[u], id);
      assert u in s'.jobs && Releasing(s'.jobs[u], id);
    }
    if IsReleased(s', id) {
      var u :| u in s'.jobs && Releasing(s'.jobs[u], id);
      assert u in s.jobs && Releasing(s.jobs[u], id);
    }
  }

  lemma CreateNames(s: State, t: nat, h: nat, address: nat, id0: nat)
    requires Inv(s) && t !in s.jobs && id0 !in s.taken
    ensures NamesOk(Created(s, t, h, address, id0))
  {
  }

  lemma CreateJobs(s: State, t: nat, h: nat, address: nat, id0: nat)
    requires Inv(s) && t !in s.jobs && id0 !in s.taken && MayWrite(s, h)
    ensures JobsOk(Created(s, t, h, address, id0))
  {
    var s' := Created(s, t, h, address, id0);
    NobodyHolds(s, id0);
    forall id
      ensures Interned(s', id) <==> Interned(s, id)
    {
      if id == id0 && address in s.interned {
        assert AddressOk(s, address);
      }
    }
    forall u | u in s'.jobs
      ensures JobOk(s', u)
    {
      if u != t {
        assert JobOk(s, u);
      }
    }
    forall u, v | u in s'.jobs && v in s'.jobs && u != v
      ensures Apart(s', u, v)
    {
      if u != t && v != t {
        assert Apart(s, u, v);
      }
    }
  }

  lemma CreateKeepsInv(s: State, t: nat, h: nat, address: nat, id0: nat)
    requires Inv(s) && t !in s.jobs && id0 !in s.taken && MayWrite(s, h)
    ensures Inv(Created(s, t, h, address, id0))
  {
    forall id | id in Created(s, t, h, address, id0).pool
      ensures ResourceOk(Created(s, t, h, address, id0), id)
    {
      CreateResource(s, t, h, address, id0, id);
    }
    CreateNames(s, t, h, address, id0);
    CreateJobs(s, t, h, address, id0);
  }

  /** Nobody holds a resource that is not taken. */
  lemma NobodyHolds(s: State, id: nat)
    requires Inv(s) && id !in s.taken
    ensures Refs(s, id) == 0 && !IsReleased(s, id)
    ensures id in s.pool ==> s.pool[id].refs == 0
    ensures !Interned(s, id)
    ensures forall t :: t in s.jobs ==> !Holds(s.jobs[t], id)
  {
  }

  /** The thread that made a resource is the only one to hold it until it is interned. */
  lemma SoleHolder(s: State, t: nat)
    requires Inv(s) && t in s.jobs && s.jobs[t].Insert?
    ensures Denoting(s.objects, s.jobs[t].id) == {} && Holding(s.jobs, s.jobs[t].id) == {t}
    ensures forall h :: h in s.objects ==> !Denotes(s.objects[h], s.jobs[t].id)
    ensures forall u :: u in s.jobs && u != t ==> !Holds(s.jobs[u], s.jobs[t].id)
    ensures !IsReleased(s, s.jobs[t].id)
  {
    var id := s.jobs[t].id;
    assert JobOk(s, t) && ResourceOk(s, id);
    assert t in Holding(s.jobs, id);
    assert Holding(s.jobs, id) == {t} + (Holding(s.jobs, id) - {t});
    assert Denoting(s.objects, id) == {};
    forall h | h in s.objects
      ensures !Denotes(s.objects[h], id)
    {
      assert h !in Denoting(s.objects, id);
    }
    forall u | u in s.jobs && u != t
      ensures !Holds(s.jobs[u], id)
    {
      assert u !in Holding(s.jobs, id);
    }
    forall u | u in s.jobs
      ensures !Releasing(s.jobs[u], id)
    {
      assert JobOk(s, u);
    }
  }

  /** Thread `t` has made `id` and finds the equal `first` alive in the global set. */
  ghost predicate MayShare(s: State, t: nat, h: nat, id: nat, first: nat) {
    && Inv(s) && t in s.jobs && s.jobs[t] == Insert(h, id) && id in s.pool
    && Interned(s, first) && s.pool[first].refs != 0
  }

  lemma ShareResource(s: State, t: nat, h: nat, id0: nat, first: nat, id: nat)
    requires MayShare(s, t, h, id0, first) && id in s.pool
    ensures ResourceOk(Share(s, t, h, id0, first), id)
  {
    var s' := Share(s, t, h, id0, first);
    assert JobOk(s, t) && id0 != first;
    SoleHolder(s, t);
    assert ResourceOk(s, id);
    HoldingUpdate(s.jobs, t, s'.jobs[t], id);
    if IsReleased(s, id) {
      var u :| u in s.jobs && Releasing(s.jobs[u], id);
      assert u in s'.jobs && Releasing(s'.jobs[u], id);
    }
    if IsReleased(s', id) {
      var u :| u in s'.jobs && Releasing(s'.jobs[u], id);
      assert u in s.jobs && Releasing(s.jobs[u], id);
    }
  }

  lemma ShareNames(s: State, t: nat, h: nat, id0: nat, first: nat)
    requires MayShare(s, t, h, id0, first)
    ensures NamesOk(Share(s, t, h, id0, first))
  {
    var s' := Share(s, t, h, id0, first);
    assert JobOk(s, t);
    forall k | k in s'.objects
      ensures ObjectOk(s', k)
    {
      assert ObjectOk(s, k);
    }
    forall a | a in s'.interned
      ensures AddressOk(s', a)
    {
      assert AddressOk(s, a);
    }
  }

  lemma ShareOtherJob(s: State, t: nat, h: nat, id0: nat, first: nat, u: nat)
    requires t in s.jobs && s.jobs[t] == Insert(h, id0) && JobOk(s, t)
    requires Interned(s, first) && s.pool[first].refs > 0
    requires u in s.jobs && u != t && JobOk(s, u) && !Holds(s.jobs[u], id0)
    ensures JobOk(Share(s, t, h, id0, first), u)
  {
  }

  lemma ShareJob(s: State, t: nat, h: nat, id0: nat, first: nat, u: nat)
    requires MayShare(s, t, h, id0, first) && u in s.jobs && u != t
    ensures JobOk(Share(s, t, h, id0, first), u)
  {
    assert JobOk(s, t) && JobOk(s, u) && ResourceOk(s, first);
    SoleHolder(s, t);
    ShareOtherJob(s, t, h, id0, first, u);
  }

  lemma ShareJobs(s: State, t: nat, h: nat, id0: nat, first: nat)
    requires MayShare(s, t, h, id0, first)
    ensures JobsOk(Share(s, t, h, id0, first))
  {
    var s' := Share(s, t, h, id0, first);
    assert JobOk(s, t);
    forall u | u in s'.jobs
      ensures JobOk(s', u)
    {
      if u != t {
        ShareJob(s, t, h, id0, first, u);
      }
    }
    forall u, v | u in s'.jobs && v in s'.jobs && u != v
      ensures Apart(s', u, v)
    {
      assert Apart(s, u, v);
    }
  }

  /** Thread `t` has made `id` and finds no live equal endpoint in the global set. */
  ghost predicate MayPublish(s: State, t: nat, h: nat, id: nat) {
    && Inv(s) && t in s.jobs && s.jobs[t] == Insert(h, id) && id in s.pool
    && (forall i :: Interned(s, i) && s.pool[i].address == s.pool[id].address ==> s.pool[i].refs == 0)
  }

  /** Interning `id` only displaces an equal endpoint that nobody holds. */
  lemma PublishDisplaces(s: State, t: nat, h: nat, id0: nat, id: nat)
    requires MayPublish(s, t, h, id0) && id in s.pool
    ensures Interned(Publish(s, t, h, id0), id)
       <==> id == id0 || (Interned(s, id) && s.pool[id].address != s.pool[id0].address)
    ensures Interned(s, id) && s.pool[id].refs > 0 ==> Interned(Publish(s, t, h, id0), id)
  {
  }

  lemma PublishResource(s: State, t: nat, h: nat, id0: nat, id: nat)
    requires MayPublish(s, t, h, id0) && id in s.pool
    ensures ResourceOk(Publish(s, t, h, id0), id)
  {
    var s' := Publish(s, t, h, id0);
    assert ResourceOk(s, id);
    HoldingUpdate(s.jobs, t, s'.jobs[t], id);
    if IsReleased(s, id) {
      var u :| u in s.jobs && Releasing(s.jobs[u], id);
      assert u in s'.jobs && Releasing(s'.jobs[u], id);
    }
    if IsReleased(s', id) {
      var u :| u in s'.jobs && Releasing(s'.jobs[u], id);
      assert u in s.jobs && Releasing(s.jobs[u], id);
    }
  }

  lemma PublishNames(s: State, t: nat, h: nat, id0: nat)
    requires MayPublish(s, t, h, id0)
    ensures NamesOk(Publish(s, t, h, id0))
  {
    var s' := Publish(s, t, h, id0);
    assert JobOk(s, t) && ResourceOk(s, id0);
    forall k | k in s'.objects
      ensures ObjectOk(s', k)
    {
      ObjectIsCounted(s, k);
      if Extended(s.objects[k]) {
        PublishDisplaces(s, t, h, id0, s.objects[k].ip);
      }
    }
    forall a | a in s'.interned
      ensures AddressOk(s', a)
    {
      assert a in s.interned ==> AddressOk(s, a);
    }
  }

  lemma PublishJob(s: State, t: nat, h: nat, id0: nat, u: nat)
    requires MayPublish(s, t, h, id0) && u in s.jobs && u != t
    ensures JobOk(Publish(s, t, h, id0), u)
  {
    var s' := Publish(s, t, h, id0);
    var job := s.jobs[u];
    assert JobOk(s, u) && JobOk(s, t);
    SoleHolder(s, t);
    forall id | id in s.pool && Holds(job, id)
      ensures Interned(s, id) ==> Interned(s', id)
    {
      assert ResourceOk(s, id);
      HeldIsCounted(s, id);
      PublishDisplaces(s, t, h, id0, id);
    }
    forall id | id in s.pool && id != id0
      ensures !Interned(s, id) ==> !Interned(s', id)
    {
      PublishDisplaces(s, t, h, id0, id);
    }
  }

  lemma PublishJobs(s: State, t: nat, h: nat, id0: nat)
    requires MayPublish(s, t, h, id0)
    ensures JobsOk(Publish(s, t, h, id0))
  {
    var s' := Publish(s, t, h, id0);
    assert JobOk(s, t);
    forall u | u in s'.jobs
      ensures JobOk(s', u)
    {
      if u != t {
        PublishJob(s, t, h, id0, u);
      }
    }
    forall u, v | u in s'.jobs && v in s'.jobs && u != v
      ensures Apart(s', u, v)
    {
      assert Apart(s, u, v);
    }
  }

  /** `dedup` keeps the invariant, whichever endpoint it settles on. */
  lemma DedupKeepsInv(s: State, t: nat)
    requires Inv(s) && t in s.jobs && s.jobs[t].Insert? && s.jobs[t].id in s.pool
    ensures Inv(Dedup(s, t, s.jobs[t].h, s.jobs[t].id))
  {
    var h, id0 := s.jobs[t].h, s.jobs[t].id;
    var address := s.pool[id0].address;
    if address in s.interned {
      assert AddressOk(s, address);
    }
    if address in s.interned && s.pool[s.interned[address]].refs != 0 {
      var first := s.interned[address];
      forall id | id in s.pool
        ensures ResourceOk(Share(s, t, h, id0, first), id)
      {
        ShareResource(s, t, h, id0, first, id);
      }
      ShareNames(s, t, h, id0, first);
      ShareJobs(s, t, h, id0, first);
    } else {
      forall id | id in s.pool
        ensures ResourceOk(Publish(s, t, h, id0), id)
      {
        PublishResource(s, t, h, id0, id);
      }
      PublishNames(s, t, h, id0);
      PublishJobs(s, t, h, id0);
    }
  }

  // ---- Whole runs ----

  lemma ContinueKeepsInv(s: State, t: nat)
    requires Inv(s) && t in s.jobs
    ensures Inv(Resume(s, t, s.jobs[t]))
  {
    assert JobOk(s, t);
    match s.jobs[t]
    case Insert(h, id) => DedupKeepsInv(s, t);
    case Embedding(h, id) => DropKeepsInv(s, t, h, Embed(h, id));
    case Erase(id, next) => EraseKeepsInv(s, t);
    case Return(id, next) => ReturnKeepsInv(s, t);
    case Finish(next) =>
      match next
      case Nothing => IdleKeepsInv(s, t);
      case Embed(h, id) => EmbedKeepsInv(s, t, h, id);
      case Copy(h, src) =>
        IdleKeepsInv(s, t);
        CopyIsSafe(s, t, h, src);
        SetKeepsInv(s.(jobs := s.jobs - {t}), h, s.objects[src]);
  }

  lemma CopyIsSafe(s: State, t: nat, h: nat, src: nat)
    requires Inv(s) && t in s.jobs && s.jobs[t] == Finish(Copy(h, src)) && src in s.objects
    requires Inv(s.(jobs := s.jobs - {t}))
    ensures MaySet(s.(jobs := s.jobs - {t}), h, s.objects[src])
  {
    assert JobOk(s, t) && h in Writes(s.jobs[t]);
    if Extended(s.objects[src]) {
      ObjectIsCounted(s, src);
    }
    forall u | u in s.jobs && u != t
      ensures h !in Writes(s.jobs[u])
    {
      assert Apart(s, t, u);
    }
  }

  lemma CopyNewKeepsInv(s: State, h: nat, src: nat)
    requires Inv(s) && h !in s.objects && src in s.objects
    ensures Inv(SetEndPoint(s, h, s.objects[src]))
  {
    if Extended(s.objects[src]) {
      ObjectIsCounted(s, src);
    }
    forall t | t in s.jobs
      ensures h !in Writes(s.jobs[t])
    {
      assert JobOk(s, t);
    }
    SetKeepsInv(s, h, s.objects[src]);
  }

  lemma DestroyKeepsInv(s: State, t: nat, h: nat)
    requires Inv(s) && t !in s.jobs && MayWrite(s, h)
    ensures Inv(Apply(s, Destroy(t, h)))
  {
    var d := Drop(s, t, h, Nothing);
    DropKeepsInv(s, t, h, Nothing);
    DropIsAlone(s, t, h);
    RemoveKeepsInv(d, h);
  }

  lemma DropIsAlone(s: State, t: nat, h: nat)
    requires t !in s.jobs && MayWrite(s, h)
    ensures var d := Drop(s, t, h, Nothing);
      && d.objects == s.objects[h := ANY]
      && (forall u :: u in d.jobs ==> h !in Writes(d.jobs[u]) && h !in Reads(d.jobs[u]))
  {
  }

  /** The step is no parse, or one that leaves the object as it is, or one of a plain endpoint over a plain one. */
  predicate IsSafe(s: State, a: Action)
    requires Enabled(s, a)
  {
    a.Parse? ==>
      var e := s.objects[a.h];
      var e' := Stored(e, a.ip, a.port);
      e' == e || (!Extended(e) && !Extended(e'))
  }

  lemma ParseKeepsInv(s: State, a: Action)
    requires Inv(s) && Enabled(s, a) && a.Parse? && IsSafe(s, a)
    ensures Inv(Apply(s, a))
  {
    var e' := Stored(s.objects[a.h], a.ip, a.port);
    if e' == s.objects[a.h] {
      assert s.objects[a.h := e'] == s.objects;
    } else {
      SetKeepsInv(s, a.h, e');
    }
  }

  /** Any other parse makes a reference vanish, or an object denote what it holds no reference to. */
  lemma OtherParseBreaksInv(s: State, a: Action)
    requires Inv(s) && Enabled(s, a) && !IsSafe(s, a)
    ensures !Inv(Apply(s, a))
  {
    var e, e', s' := s.objects[a.h], Stored(s.objects[a.h], a.ip, a.port), Apply(s, a);
    var id := if Extended(e) then e.ip else e'.ip;
    assert ObjectOk(s, a.h);
    if id in s.pool {
      assert ResourceOk(s, id);
      DenotingUpdate(s.objects, a.h, e', id);
      assert !ResourceOk(s', id);
    } else {
      assert !ObjectOk(s', a.h);
    }
  }

  /** Every step of every thread keeps the invariant, except exactly the parses that are not safe. */
  lemma StepKeepsInv(s: State, a: Action)
    requires Inv(s) && Enabled(s, a)
    ensures Inv(Apply(s, a)) <==> IsSafe(s, a)
  {
    if !IsSafe(s, a) {
      OtherParseBreaksInv(s, a);
    } else {
      SafeStepKeepsInv(s, a);
    }
  }

  lemma SafeStepKeepsInv(s: State, a: Action)
    requires Inv(s) && Enabled(s, a) && IsSafe(s, a)
    ensures Inv(Apply(s, a))
  {
    match a
    case New(t, h, e) => NewKeepsInv(s, h, e);
    case CopyNew(t, h, src) => CopyNewKeepsInv(s, h, src);
    case Assign(t, h, src) => DropKeepsInv(s, t, h, Copy(h, src));
    case Reset(t, h) => DropKeepsInv(s, t, h, Nothing);
    case Destroy(t, h) => DestroyKeepsInv(s, t, h);
    case Create(t, h, address, id) => CreateKeepsInv(s, t, h, address, id);
    case Parse(_, _, _, _) => ParseKeepsInv(s, a);
    case Continue(t) => ContinueKeepsInv(s, t);
  }

  /** The run can be performed from `s`, and all its parses are safe. */
  predicate IsSafeRun(s: State, acts: seq<Action>)
    decreases |acts|
  {
    acts == [] || (Enabled(s, acts[0]) && IsSafe(s, acts[0]) && IsSafeRun(Apply(s, acts[0]), acts[1..]))
  }

  /** The invariant holds in every state of the run. */
  ghost predicate InvThroughout(s: State, acts: seq<Action>)
    decreases |acts|
  {
    Inv(s) && (acts == [] || (Enabled(s, acts[0]) && InvThroughout(Apply(s, acts[0]), acts[1..])))
  }

  /** The invariant holds throughout a run if and only if the parses of the run are safe. */
  lemma {:induction false} RunKeepsInv(s: State, acts: seq<Action>)
    requires Inv(s) && Exec(s, acts).Some?
    ensures InvThroughout(s, acts) <==> IsSafeRun(s, acts)
    ensures IsSafeRun(s, acts) ==> Inv(Exec(s, acts).value)
    decreases |acts|
  {
    if acts != [] {
      StepKeepsInv(s, acts[0]);
      if IsSafe(s, acts[0]) {
        RunKeepsInv(Apply(s, acts[0]), acts[1..]);
      }
    }
  }

  /** The start satisfies the invariant, so every state of a safe run does. */
  lemma RunIsSafe(acts: seq<Action>)
    requires Exec(START, acts).Some? && IsSafeRun(START, acts)
    ensures Inv(Exec(START, acts).value)
  {
    RunKeepsInv(START, acts);
  }

  /**
   Conservation: in every safe run, the count of a resource is the number of objects that
   denote it plus the number of threads about to make an object denote it, and the
   resource is out of the pool exactly while it is held or on its way back.
   */
  lemma CountsAreExact(acts: seq<Action>, id: nat)
    requires Exec(START, acts).Some? && IsSafeRun(START, acts) && id in Exec(START, acts).value.pool
    ensures var s := Exec(START, acts).value;
            && s.pool[id].refs == |Denoting(s.objects, id)| + |Holding(s.jobs, id)|
            && (id in s.taken <==> Denoting(s.objects, id) != {} || Holding(s.jobs, id) != {} || IsReleased(s, id))
  {
    RunIsSafe(acts);
    assert ResourceOk(Exec(START, acts).value, id);
  }

  /** Whenever no thread is inside an operation, a resource is taken if and only if some object denotes it. */
  lemma NothingLeaks(acts: seq<Action>, id: nat)
    requires Exec(START, acts).Some? && IsSafeRun(START, acts) && Exec(START, acts).value.jobs == map[]
    ensures var s := Exec(START, acts).value;
            && (id in s.taken <==> exists h :: h in s.objects && Denotes(s.objects[h], id))
            && (id in s.taken ==> id in s.pool && s.pool[id].refs == |Denoting(s.objects, id)|)
  {
    RunIsSafe(acts);
    var s := Exec(START, acts).value;
    assert Holding(s.jobs, id) == {};
    if id in s.pool {
      assert ResourceOk(s, id);
      if id in s.taken {
        var h :| h in Denoting(s.objects, id);
      }
    }
    forall h | h in s.objects && Denotes(s.objects[h], id)
      ensures id in s.taken
    {
      assert ObjectOk(s, h) && AddressOk(s, s.pool[id].address);
    }
  }

  /** Two objects with the same socket address have the same value, and conversely. */
  lemma EqualAddressEqualValue(acts: seq<Action>, h: nat, k: nat)
    requires Exec(START, acts).Some? && IsSafeRun(START, acts)
    requires var s := Exec(START, acts).value;
             h in s.objects && k in s.objects && Extended(s.objects[h]) && Extended(s.objects[k])
    ensures var s := Exec(START, acts).value;
            && s.objects[h].ip in s.pool && s.objects[k].ip in s.pool
            && (s.objects[h] == s.objects[k] <==> s.pool[s.objects[h].ip].address == s.pool[s.objects[k].ip].address)
  {
    RunIsSafe(acts);
    var s := Exec(START, acts).value;
    assert ObjectOk(s, h) && ObjectOk(s, k);
  }

  /** The object that the step resets or copies, if it does either, names a resource with a positive count. */
  predicate ChecksPass(s: State, a: Action)
    requires Enabled(s, a)
  {
    match a
    case New(_, _, _) => true
    case CopyNew(_, _, src) => CheckCounted(s, src)
    case Assign(_, h, _) => CheckCounted(s, h)
    case Reset(_, h) => CheckCounted(s, h)
    case Destroy(_, h) => CheckCounted(s, h)
    case Create(_, _, _, id) => id in s.pool ==> s.pool[id].refs == 0 && !s.pool[id].family
    case Parse(_, _, _, _) => true
    case Continue(t) =>
      match s.jobs[t]
      case Embedding(h, _) => CheckCounted(s, h)
      case Finish(Copy(_, src)) => CheckCounted(s, src)
      case _ => true
  }

  predicate CheckCounted(s: State, h: nat) {
    h in s.objects && (Extended(s.objects[h]) ==> s.objects[h].ip in s.pool && s.pool[s.objects[h].ip].refs >= 1)
  }

  /** The run-time checks on reference counts and on the family of a new resource never fail. */
  lemma ChecksNeverFail(acts: seq<Action>, a: Action)
    requires Exec(START, acts).Some? && IsSafeRun(START, acts) && Enabled(Exec(START, acts).value, a)
    ensures ChecksPass(Exec(START, acts).value, a)
  {
    RunIsSafe(acts);
    var s := Exec(START, acts).value;
    forall h | h in s.objects
      ensures CheckCounted(s, h)
    {
      if Extended(s.objects[h]) {
        ObjectIsCounted(s, h);
      }
    }
    match a {
      case Create(_, _, _, id) => NobodyHolds(s, id);
      case Continue(t) => assert JobOk(s, t);
      case _ =>
    }
  }

  // ---- What one operation does ----

  function Remaining(job: Job): nat {
    match job
    case Insert(_, _) => 5
    case Embedding(_, _) => 4
    case Erase(_, _) => 3
    case Return(_, _) => 2
    case Finish(_) => 1
  }

  lemma OwnStepAdvances(s: State, t: nat)
    requires t in s.jobs && JobOk(s, t)
    ensures var s' := Resume(s, t, s.jobs[t]); t in s'.jobs ==> Remaining(s'.jobs[t]) < Remaining(s.jobs[t])
  {
    match s.jobs[t]
    case Embedding(h, id) => DropAdvances(s, t, h, Embed(h, id));
    case _ =>
  }

  lemma DropAdvances(s: State, t: nat, h: nat, next: Then)
    requires h in s.objects
    ensures var s' := Drop(s, t, h, next);
      t in s'.jobs && Remaining(s'.jobs[t]) <= 3 && s'.jobs == s.jobs[t := s'.jobs[t]]
  {
  }

  /** A thread's step leaves the jobs of the others alone. */
  lemma ResumeIsLocal(s: State, u: nat, job: Job, t: nat)
    requires t in s.jobs && t != u
    ensures var s' := Resume(s, u, job); t in s'.jobs && s'.jobs[t] == s.jobs[t]
  {
    match job
    case Embedding(h, id) =>
      if h in s.objects {
        DropAdvances(s, u, h, Embed(h, id));
      }
    case _ =>
  }

  lemma OtherStepWaits(s: State, a: Action, t: nat)
    requires Enabled(s, a) && t in s.jobs && a.t != t
    ensures var s' := Apply(s, a); t in s'.jobs && s'.jobs[t] == s.jobs[t]
  {
    match a
    case Assign(u, h, src) => DropAdvances(s, u, h, Copy(h, src));
    case Reset(u, h) => DropAdvances(s, u, h, Nothing);
    case Destroy(u, h) => DropAdvances(s, u, h, Nothing);
    case Continue(u) => ResumeIsLocal(s, u, s.jobs[u], t);
    case _ =>
  }

  /** How many steps of `acts` are taken by thread `t`. */
  function StepsOf(acts: seq<Action>, t: nat): nat {
    if acts == [] then 0 else (if acts[0].t == t then 1 else 0) + StepsOf(acts[1..], t)
  }

  /** The operation that thread `t` is in has ended by some point of the run. */
  ghost predicate HasEnded(s: State, acts: seq<Action>, t: nat)
    decreases |acts|
  {
    t !in s.jobs || (acts != [] && Enabled(s, acts[0]) && HasEnded(Apply(s, acts[0]), acts[1..], t))
  }

  /**
   No operation stays under way forever: whatever the other threads do, it has ended when
   its own thread has taken as many steps as remain to it, which are five at most.
   */
  lemma {:induction false} OperationEnds(s: State, acts: seq<Action>, t: nat)
    requires Inv(s) && t in s.jobs && IsSafeRun(s, acts) && StepsOf(acts, t) >= Remaining(s.jobs[t])
    ensures HasEnded(s, acts, t) && Remaining(s.jobs[t]) <= 5
    decreases |acts|
  {
    var a := acts[0];
    var s' := Apply(s, a);
    SafeStepKeepsInv(s, a);
    if a.t == t {
      assert JobOk(s, t);
      OwnStepAdvances(s, t);
    } else {
      OtherStepWaits(s, a, t);
    }
    if t in s'.jobs {
      OperationEnds(s', acts[1..], t);
    }
  }

  /** The state after thread `t` has completed its operation, undisturbed. */
  function Settle(s: State, t: nat): State
    decreases if t in s.jobs then Remaining(s.jobs[t]) else 0
  {
    if t !in s.jobs then s
    else
      var s' := Resume(s, t, s.jobs[t]);
      if t in s'.jobs && Remaining(s'.jobs[t]) >= Remaining(s.jobs[t]) then s' else Settle(s', t)
  }

  /**
   Assignment resets its target first, so it copies the value of the source only when
   the two are different objects; assigning an object to itself clears it.
   */
  lemma AssignCopiesUnlessSelf(s: State, t: nat, h: nat, src: nat)
    requires Inv(s) && Enabled(s, Assign(t, h, src))
    ensures var s' := Settle(Apply(s, Assign(t, h, src)), t);
            && t !in s'.jobs && h in s'.objects
            && (s'.objects[h] == s.objects[src] <==> h != src || s.objects[h] == ANY)
            && (forall k :: k in s.objects && k != h ==> k in s'.objects && s'.objects[k] == s.objects[k])
  {
    var cleared := s.objects[h := ANY];
    AssignSettles(s, t, h, src, cleared);
    assert cleared[src] == if src == h then ANY else s.objects[src];
  }

  lemma AssignSettles(s: State, t: nat, h: nat, src: nat, cleared: map<nat, EndPoint>)
    requires Inv(s) && t !in s.jobs && MayWrite(s, h) && src in s.objects && cleared == s.objects[h := ANY]
    ensures var s' := Settle(Drop(s, t, h, Copy(h, src)), t);
            t !in s'.jobs && s'.objects == cleared[h := cleared[src]]
  {
    DropKeepsInv(s, t, h, Copy(h, src));
    CopySettles(Drop(s, t, h, Copy(h, src)), t, h, src);
  }

  /** An assignment that has reset its target comes to its end with the source copied as it is then. */
  lemma CopySettles(s: State, t: nat, h: nat, src: nat)
    requires Inv(s) && t in s.jobs && (s.jobs[t].Erase? || s.jobs[t].Finish?) && s.jobs[t].then_ == Copy(h, src)
    ensures src in s.objects && t !in Settle(s, t).jobs
    ensures Settle(s, t).objects == s.objects[h := s.objects[src]]
  {
    if s.jobs[t].Erase? {
      var s' := ReleaseSettles(s, t);
      FinishCopy(s', t, h, src);
    } else {
      FinishCopy(s, t, h, src);
    }
  }

  /** Erasing and returning a resource leave the objects alone and lead on to what comes next. */
  lemma ReleaseSettles(s: State, t: nat) returns (s': State)
    requires Inv(s) && t in s.jobs && s.jobs[t].Erase?
    ensures Inv(s') && s'.objects == s.objects
    ensures t in s'.jobs && s'.jobs[t] == Finish(s.jobs[t].then_)
    ensures Settle(s, t) == Settle(s', t)
  {
    var mid := Resume(s, t, s.jobs[t]);
    EraseKeepsInv(s, t);
    s' := Resume(mid, t, mid.jobs[t]);
    ReturnKeepsInv(mid, t);
    assert Settle(mid, t) == Settle(s', t);
  }

  lemma FinishCopy(s: State, t: nat, h: nat, src: nat)
    requires Inv(s) && t in s.jobs && s.jobs[t] == Finish(Copy(h, src))
    ensures src in s.objects
    ensures Settle(s, t) == Resume(s, t, s.jobs[t])
    ensures t !in Settle(s, t).jobs
    ensures Settle(s, t).objects == s.objects[h := s.objects[src]]
  {
  }

  /** A concrete run: an object with port 80 is assigned to itself and ends up with none. */
  lemma SelfAssignmentClears()
    ensures var acts := [New(0, 0, EndPoint(7, 80)), Assign(0, 0, 0), Continue(0)];
            Exec(START, acts).Some? && Exec(START, acts).value.objects == map[0 := ANY]
  {
    var e := EndPoint(7, 80);
    var acts := [New(0, 0, e), Assign(0, 0, 0), Continue(0)];
    var s1 := Apply(START, acts[0]);
    var s2 := Apply(s1, acts[1]);
    var s3 := Apply(s2, acts[2]);
    assert acts[1..] == [acts[1], acts[2]] && acts[1..][1..] == [acts[2]];
    assert Exec(s2, [acts[2]]) == Exec(s3, []);
    assert Exec(START, acts) == Exec(s1, acts[1..]) == Exec(s2, [acts[2]]);
  }
}
