/**
 Model of `SynchronousEvent` (turbo/base/synchronous_event.h): an observer list that
 observers may change from inside their own callbacks. Removing an observer leaves
 an empty slot behind, and the end of a notification squeezes the empty slots out.
 */
module SyncEvent {
  import opened Common

  /** An observer pointer: null, or the observer it points to. */
  datatype Slot = Null | Holds(ob: nat)

  /** What a callback does to the event it is called from. */
  datatype Op =
    | Subscribe(who: Slot)
    | Unsubscribe(who: Slot)
    | Clear
    | Notify(reactions: seq<Reaction>)

  /** What one call of `on_event` does, in order. */
  datatype Reaction = Reaction(ops: seq<Op>)

  /** The history of an event: a subscription added to or removed from a slot, or an observer called. */
  datatype Event =
    | Added(slot: nat, ob: nat)
    | Removed(slot: nat, ob: nat)
    | Called(slot: nat, ob: nat)

  datatype Outcome = Outcome(obs: seq<Slot>, log: seq<Event>)

  // ---- Operations on the slots ----

  function Subscribed(obs: seq<Slot>, who: Slot): Outcome {
    if who == Null || IndexOf(obs, who) < |obs| then Outcome(obs, [])
    else Outcome(obs + [who], [Added(|obs|, who.ob)])
  }

  function Unsubscribed(obs: seq<Slot>, who: Slot): Outcome {
    var i := IndexOf(obs, who);
    if who == Null || i == |obs| then Outcome(obs, [])
    else Outcome(obs[i := Null], [Removed(i, who.ob)])
  }

  /** The removals of `clear`, from slot `i` on. */
  function Removals(obs: seq<Slot>, i: nat): seq<Event>
    requires i <= |obs|
    decreases |obs| - i
  {
    if i == |obs| then []
    else if obs[i] == Null then Removals(obs, i + 1)
    else [Removed(i, obs[i].ob)] + Removals(obs, i + 1)
  }

  function Cleared(obs: seq<Slot>): Outcome {
    Outcome(seq(|obs|, _ => Null), Removals(obs, 0))
  }

  /** The observers in the list, in order. */
  function Live(obs: seq<Slot>): seq<nat> {
    if obs == [] then []
    else if obs[0] == Null then Live(obs[1..])
    else [obs[0].ob] + Live(obs[1..])
  }

  /** The slots without the empty ones. */
  function Shrunk(obs: seq<Slot>): seq<Slot> {
    if obs == [] then []
    else if obs[0] == Null then Shrunk(obs[1..])
    else [obs[0]] + Shrunk(obs[1..])
  }

  /** The effect of one operation. */
  function Perform(obs: seq<Slot>, op: Op): Outcome
    decreases op, 0
  {
    match op
    case Subscribe(who) => Subscribed(obs, who)
    case Unsubscribe(who) => Unsubscribed(obs, who)
    case Clear => Cleared(obs)
    case Notify(reactions) =>
      var d := Deliver(obs, 0, reactions);
      Outcome(Shrunk(d.obs), d.log)
  }

  /** A callback performs `ops`. */
  function React(obs: seq<Slot>, ops: seq<Op>): Outcome
    decreases ops, 0
  {
    if ops == [] then Outcome(obs, [])
    else
      var first := Perform(obs, ops[0]);
      var rest := React(first.obs, ops[1..]);
      Outcome(rest.obs, first.log + rest.log)
  }

  /**
   The loop of `notify` from slot `i` on. The callbacks react in the order in which
   they are called; those beyond the last reaction do nothing.
   */
  function Deliver(obs: seq<Slot>, i: nat, reactions: seq<Reaction>): Outcome
    decreases reactions, 1, |obs| - i
  {
    if i >= |obs| then Outcome(obs, [])
    else if obs[i] == Null then Deliver(obs, i + 1, reactions)
    else
      var call := [Called(i, obs[i].ob)];
      if reactions == [] then
        var rest := Deliver(obs, i + 1, reactions);
        Outcome(rest.obs, call + rest.log)
      else
        var reaction := React(obs, reactions[0].ops);
        var rest := Deliver(reaction.obs, i + 1, reactions[1..]);
        Outcome(rest.obs, call + reaction.log + rest.log)
  }

  // ---- The list is an ordered set ----

  /** No observer occupies two slots. */
  ghost predicate WellFormed(obs: seq<Slot>) {
    forall i, j :: 0 <= i < j < |obs| && obs[i] != Null ==> obs[i] != obs[j]
  }

  function Without(live: seq<nat>, ob: nat): seq<nat> {
    if live == [] then []
    else (if live[0] == ob then [] else [live[0]]) + Without(live[1..], ob)
  }

  /** The ordered set `live` after the subscriptions and removals in `log`. */
  function Members(live: seq<nat>, log: seq<Event>): seq<nat>
    decreases |log|
  {
    if log == [] then live
    else match log[0]
      case Added(_, ob) => Members(live + [ob], log[1..])
      case Removed(_, ob) => Members(Without(live, ob), log[1..])
      case Called(_, _) => Members(live, log[1..])
  }

  /** Only absent observers are added, and only present ones are removed or called. */
  predicate Faithful(live: seq<nat>, log: seq<Event>)
    decreases |log|
  {
    if log == [] then true
    else match log[0]
      case Added(_, ob) => ob !in live && Faithful(live + [ob], log[1..])
      case Removed(_, ob) => ob in live && Faithful(Without(live, ob), log[1..])
      case Called(_, ob) => ob in live && Faithful(live, log[1..])
  }

  lemma {:induction false} LogsCompose(live: seq<nat>, a: seq<Event>, b: seq<Event>)
    ensures Members(live, a + b) == Members(Members(live, a), b)
    ensures Faithful(live, a + b) <==> Faithful(live, a) && Faithful(Members(live, a), b)
    decreases |a|
  {
    if a == [] {
      assert a + b == b;
    } else {
      assert (a + b)[1..] == a[1..] + b;
      match a[0]
      case Added(_, ob) => LogsCompose(live + [ob], a[1..], b);
      case Removed(_, ob) => LogsCompose(Without(live, ob), a[1..], b);
      case Called(_, _) => LogsCompose(live, a[1..], b);
    }
  }

  lemma LogsAssociate(a: seq<Event>, b: seq<Event>, c: seq<Event>)
    ensures a + (b + c) == (a + b) + c
  {
  }

  lemma LogsJoin(a: seq<Event>, b: seq<Event>, c: seq<Event>, d: seq<Event>)
    ensures a + (b + c + d) == (a + b + c) + d
  {
  }

  lemma {:induction false} LiveOfConcat(a: seq<Slot>, b: seq<Slot>)
    ensures Live(a + b) == Live(a) + Live(b)
  {
    if a == [] {
      assert a + b == b;
    } else {
      assert (a + b)[1..] == a[1..] + b;
      LiveOfConcat(a[1..], b);
    }
  }

  lemma {:induction false} LiveContains(obs: seq<Slot>, ob: nat)
    ensures ob in Live(obs) <==> Holds(ob) in obs
  {
    if obs != [] {
      LiveContains(obs[1..], ob);
      assert obs == [obs[0]] + obs[1..];
    }
  }

  lemma {:induction false} WithoutAbsent(live: seq<nat>, ob: nat)
    requires ob !in live
    ensures Without(live, ob) == live
  {
    if live != [] {
      WithoutAbsent(live[1..], ob);
    }
  }

  lemma {:induction false} WithoutOfConcat(a: seq<nat>, b: seq<nat>, ob: nat)
    ensures Without(a + b, ob) == Without(a, ob) + Without(b, ob)
  {
    if a == [] {
      assert a + b == b;
    } else {
      assert (a + b)[1..] == a[1..] + b;
      WithoutOfConcat(a[1..], b, ob);
    }
  }

  lemma WithoutHead(ob: nat, rest: seq<nat>)
    requires ob !in rest
    ensures Without([ob] + rest, ob) == rest
  {
    WithoutAbsent(rest, ob);
    assert ([ob] + rest)[1..] == rest;
  }

  /** `obs` and `log` describe the same ordered set, starting from `before`. */
  ghost predicate Refines(before: seq<Slot>, after: Outcome) {
    && WellFormed(after.obs)
    && Faithful(Live(before), after.log)
    && Live(after.obs) == Members(Live(before), after.log)
  }

  lemma SubscribedRefines(obs: seq<Slot>, who: Slot)
    requires WellFormed(obs)
    ensures Refines(obs, Subscribed(obs, who))
  {
    if who != Null && IndexOf(obs, who) == |obs| {
      LiveContains(obs, who.ob);
      LiveOfConcat(obs, [who]);
      assert Live([who]) == [who.ob];
    }
  }

  lemma {:induction false} LiveSplits(obs: seq<Slot>, i: nat)
    requires i < |obs|
    ensures Live(obs) == Live(obs[..i]) + ((if obs[i] == Null then [] else [obs[i].ob]) + Live(obs[i + 1..]))
  {
    if i == 0 {
      assert obs[..0] == [];
    } else {
      var rest := obs[1..];
      LiveSplits(rest, i - 1);
      assert rest[..i - 1] == obs[..i][1..] && rest[i..] == obs[i + 1..];
    }
  }

  lemma WithoutMiddle(a: seq<nat>, ob: nat, b: seq<nat>)
    requires ob !in a && ob !in b
    ensures Without(a + ([ob] + b), ob) == a + b
  {
    WithoutOfConcat(a, [ob] + b, ob);
    WithoutAbsent(a, ob);
    WithoutHead(ob, b);
  }

  /** Emptying a slot removes its observer and no other. */
  lemma RemoveSlot(obs: seq<Slot>, i: nat)
    requires WellFormed(obs) && i < |obs| && obs[i] != Null
    ensures Live(obs[i := Null]) == Without(Live(obs), obs[i].ob)
    ensures obs[i].ob in Live(obs)
  {
    var ob, now := obs[i].ob, obs[i := Null];
    LiveContains(obs, ob);
    LiveContains(obs[..i], ob);
    LiveContains(obs[i + 1..], ob);
    LiveSplits(obs, i);
    LiveSplits(now, i);
    assert now[..i] == obs[..i] && now[i + 1..] == obs[i + 1..];
    WithoutMiddle(Live(obs[..i]), ob, Live(obs[i + 1..]));
  }

  lemma RemoveOne(obs: seq<Slot>, i: nat)
    requires i < |obs| && obs[i] != Null
    ensures |Live(obs[i := Null])| == |Live(obs)| - 1
  {
    var now := obs[i := Null];
    LiveSplits(obs, i);
    LiveSplits(now, i);
    assert now[..i] == obs[..i] && now[i + 1..] == obs[i + 1..];
  }

  lemma UnsubscribedRefines(obs: seq<Slot>, who: Slot)
    requires WellFormed(obs)
    ensures Refines(obs, Unsubscribed(obs, who))
  {
    var i := IndexOf(obs, who);
    if who != Null && i < |obs| {
      RemoveSlot(obs, i);
    }
  }

  lemma {:induction false} RemovalsEmpty(obs: seq<Slot>, i: nat)
    requires WellFormed(obs) && i <= |obs|
    ensures Faithful(Live(obs[i..]), Removals(obs, i))
    ensures Members(Live(obs[i..]), Removals(obs, i)) == []
    decreases |obs| - i
  {
    if i < |obs| {
      RemovalsEmpty(obs, i + 1);
      assert obs[i..][1..] == obs[i + 1..];
      if obs[i] != Null {
        LiveContains(obs[i + 1..], obs[i].ob);
        WithoutHead(obs[i].ob, Live(obs[i + 1..]));
        assert Live(obs[i..]) == [obs[i].ob] + Live(obs[i + 1..]);
        assert Removals(obs, i)[1..] == Removals(obs, i + 1);
      }
    }
  }

  lemma {:induction false} LiveOfNulls(obs: seq<Slot>)
    requires forall i :: 0 <= i < |obs| ==> obs[i] == Null
    ensures Live(obs) == []
  {
    if obs != [] {
      LiveOfNulls(obs[1..]);
    }
  }

  lemma ClearedRefines(obs: seq<Slot>)
    requires WellFormed(obs)
    ensures Refines(obs, Cleared(obs))
  {
    RemovalsEmpty(obs, 0);
    assert obs[0..] == obs;
    LiveOfNulls(Cleared(obs).obs);
  }

  /** Squeezing out the empty slots keeps the observers and their order. */
  lemma {:induction false} ShrunkKeepsLive(obs: seq<Slot>)
    ensures Live(Shrunk(obs)) == Live(obs)
    ensures |Shrunk(obs)| == |Live(obs)|
    ensures forall i :: 0 <= i < |Shrunk(obs)| ==> Shrunk(obs)[i] == Holds(Live(obs)[i])
  {
    if obs != [] {
      ShrunkKeepsLive(obs[1..]);
      if obs[0] != Null {
        assert Shrunk(obs)[1..] == Shrunk(obs[1..]);
      }
    }
  }

  /** A list as long as its observers has no empty slot. */
  lemma {:induction false} FullIsShrunk(obs: seq<Slot>)
    requires |Live(obs)| >= |obs|
    ensures Shrunk(obs) == obs
  {
    if obs != [] {
      LiveIsShorter(obs[1..]);
      FullIsShrunk(obs[1..]);
    }
  }

  lemma {:induction false} LiveIsShorter(obs: seq<Slot>)
    ensures |Live(obs)| <= |obs|
  {
    if obs != [] {
      LiveIsShorter(obs[1..]);
    }
  }

  lemma {:induction false} ShrunkIsWellFormed(obs: seq<Slot>)
    requires WellFormed(obs)
    ensures WellFormed(Shrunk(obs))
    ensures forall s :: s in Shrunk(obs) ==> s in obs[..]
  {
    if obs != [] {
      ShrunkIsWellFormed(obs[1..]);
      if obs[0] != Null {
        var t := Shrunk(obs[1..]);
        forall k | 0 <= k < |t|
          ensures t[k] != obs[0]
        {
          assert t[k] in obs[1..];
        }
      }
    }
  }

  /**
   Whatever callbacks do, nested notifications included, the list stays free of
   duplicates and its observers are the ordered set that the subscriptions and
   removals in the log describe; only observers in that set are ever called.
   */
  lemma {:induction false} PerformRefines(obs: seq<Slot>, op: Op)
    requires WellFormed(obs)
    ensures Refines(obs, Perform(obs, op))
    decreases op, 0
  {
    match op
    case Subscribe(who) => SubscribedRefines(obs, who);
    case Unsubscribe(who) => UnsubscribedRefines(obs, who);
    case Clear => ClearedRefines(obs);
    case Notify(reactions) =>
      DeliverRefines(obs, 0, reactions);
      ShrunkKeepsLive(Deliver(obs, 0, reactions).obs);
      ShrunkIsWellFormed(Deliver(obs, 0, reactions).obs);
  }

  lemma {:induction false} ReactRefines(obs: seq<Slot>, ops: seq<Op>)
    requires WellFormed(obs)
    ensures Refines(obs, React(obs, ops))
    decreases ops, 0
  {
    if ops != [] {
      var first := Perform(obs, ops[0]);
      PerformRefines(obs, ops[0]);
      ReactRefines(first.obs, ops[1..]);
      LogsCompose(Live(obs), first.log, React(first.obs, ops[1..]).log);
    }
  }

  lemma {:induction false} DeliverRefines(obs: seq<Slot>, i: nat, reactions: seq<Reaction>)
    requires WellFormed(obs)
    ensures Refines(obs, Deliver(obs, i, reactions))
    decreases reactions, 1, |obs| - i
  {
    if i < |obs| {
      if obs[i] == Null {
        DeliverRefines(obs, i + 1, reactions);
      } else {
        var call := [Called(i, obs[i].ob)];
        LiveContains(obs, obs[i].ob);
        assert call[1..] == [];
        if reactions == [] {
          DeliverRefines(obs, i + 1, reactions);
          LogsCompose(Live(obs), call, Deliver(obs, i + 1, reactions).log);
        } else {
          var reaction := React(obs, reactions[0].ops);
          ReactRefines(obs, reactions[0].ops);
          DeliverRefines(reaction.obs, i + 1, reactions[1..]);
          LogsCompose(Live(obs), call, reaction.log);
          LogsCompose(Live(obs), call + reaction.log, Deliver(reaction.obs, i + 1, reactions[1..]).log);
        }
      }
    }
  }

  // ---- Delivery ----

  /** The slots after the events in `log`; this is exact as long as no notification ends meanwhile. */
  function Slots(obs: seq<Slot>, log: seq<Event>): seq<Slot>
    decreases |log|
  {
    if log == [] then obs
    else match log[0]
      case Added(_, ob) => Slots(obs + [Holds(ob)], log[1..])
      case Removed(i, _) => Slots(if i < |obs| then obs[i := Null] else obs, log[1..])
      case Called(_, _) => Slots(obs, log[1..])
  }

  lemma {:induction false} SlotsCompose(obs: seq<Slot>, a: seq<Event>, b: seq<Event>)
    ensures Slots(obs, a + b) == Slots(Slots(obs, a), b)
    decreases |a|
  {
    if a == [] {
      assert a + b == b;
    } else {
      assert (a + b)[1..] == a[1..] + b;
      match a[0]
      case Added(_, ob) => SlotsCompose(obs + [Holds(ob)], a[1..], b);
      case Removed(i, _) => SlotsCompose(if i < |obs| then obs[i := Null] else obs, a[1..], b);
      case Called(_, _) => SlotsCompose(obs, a[1..], b);
    }
  }

  /** A slot once emptied stays empty. */
  lemma {:induction false} EmptyStaysEmpty(obs: seq<Slot>, log: seq<Event>, j: nat)
    ensures |obs| <= |Slots(obs, log)|
    ensures j < |obs| && obs[j] == Null ==> Slots(obs, log)[j] == Null
    decreases |log|
  {
    if log != [] {
      match log[0]
      case Added(_, ob) => EmptyStaysEmpty(obs + [Holds(ob)], log[1..], j);
      case Removed(i, _) => EmptyStaysEmpty(if i < |obs| then obs[i := Null] else obs, log[1..], j);
      case Called(_, _) => EmptyStaysEmpty(obs, log[1..], j);
    }
  }

  predicate Flat(ops: seq<Op>) {
    forall k :: 0 <= k < |ops| ==> !ops[k].Notify?
  }

  predicate AllFlat(reactions: seq<Reaction>) {
    forall k :: 0 <= k < |reactions| ==> Flat(reactions[k].ops)
  }

  ghost predicate NoCalls(log: seq<Event>) {
    forall q :: 0 <= q < |log| ==> !log[q].Called?
  }

  lemma {:induction false} RemovalsEmptySlots(obs: seq<Slot>, i: nat, now: seq<Slot>)
    requires i <= |obs| == |now|
    requires forall j :: 0 <= j < i ==> now[j] == Null
    requires forall j :: i <= j < |obs| ==> now[j] == obs[j]
    ensures Slots(now, Removals(obs, i)) == seq(|obs|, _ => Null)
    ensures NoCalls(Removals(obs, i))
    decreases |obs| - i
  {
    if i < |obs| {
      RemovalsEmptySlots(obs, i + 1, now[i := Null]);
      if obs[i] == Null {
        assert now[i := Null] == now;
      } else {
        assert Removals(obs, i)[1..] == Removals(obs, i + 1);
      }
    }
  }

  lemma FlatPerform(obs: seq<Slot>, op: Op)
    requires !op.Notify?
    ensures Slots(obs, Perform(obs, op).log) == Perform(obs, op).obs
    ensures NoCalls(Perform(obs, op).log)
  {
    if op.Clear? {
      RemovalsEmptySlots(obs, 0, obs);
    } else {
      var log := Perform(obs, op).log;
      assert log != [] ==> log[1..] == [];
    }
  }

  /** A callback that does not notify leaves the slots as its log says, and calls nobody. */
  lemma {:induction false} FlatReact(obs: seq<Slot>, ops: seq<Op>)
    requires Flat(ops)
    ensures Slots(obs, React(obs, ops).log) == React(obs, ops).obs
    ensures NoCalls(React(obs, ops).log)
    decreases |ops|
  {
    if ops != [] {
      var first := Perform(obs, ops[0]);
      FlatPerform(obs, ops[0]);
      FlatReact(first.obs, ops[1..]);
      SlotsCompose(obs, first.log, React(first.obs, ops[1..]).log);
    }
  }

  /** Event `q` of the log calls the observer then living in slot `j`. */
  ghost predicate CallsLive(obs: seq<Slot>, log: seq<Event>, q: nat)
    requires q < |log| && log[q].Called?
  {
    var now := Slots(obs, log[..q]);
    log[q].slot < |now| && now[log[q].slot] == Holds(log[q].ob)
  }

  ghost predicate IsCalled(log: seq<Event>, j: nat) {
    exists q :: 0 <= q < |log| && log[q].Called? && log[q].slot == j
  }

  ghost predicate CallsBelow(log: seq<Event>, j: nat) {
    forall r :: 0 <= r < |log| && log[r].Called? ==> log[r].slot < j
  }

  /** Slot `j` was empty at a moment before its turn: every call up to then was of an earlier slot. */
  ghost predicate GoneBefore(obs: seq<Slot>, log: seq<Event>, j: nat) {
    exists q :: 0 <= q <= |log| && CallsBelow(log[..q], j)
      && j < |Slots(obs, log[..q])| && Slots(obs, log[..q])[j] == Null
  }

  /**
   What a notification from slot `i` on promises. Every call is of the subscription
   then in the slot; calls follow subscription order, so none is repeated; and
   each subscription, those added meanwhile included, is called if and only if it was
   not removed before its turn.
   */
  ghost predicate Delivered(obs: seq<Slot>, i: nat, after: Outcome) {
    var log := after.log;
    && after.obs == Slots(obs, log)
    && (forall q :: 0 <= q < |log| && log[q].Called? ==> i <= log[q].slot && CallsLive(obs, log, q))
    && (forall q, r :: 0 <= q < r < |log| && log[q].Called? && log[r].Called? ==> log[q].slot < log[r].slot)
    && (forall j :: i <= j < |after.obs| ==> (IsCalled(log, j) <==> !GoneBefore(obs, log, j)))
  }

  /** A subscription removed before its turn is not called. */
  lemma GoneIsNotCalled(obs: seq<Slot>, log: seq<Event>, j: nat)
    requires forall q :: 0 <= q < |log| && log[q].Called? ==> CallsLive(obs, log, q)
    requires GoneBefore(obs, log, j)
    ensures !IsCalled(log, j)
  {
    var q :| 0 <= q <= |log| && CallsBelow(log[..q], j)
      && j < |Slots(obs, log[..q])| && Slots(obs, log[..q])[j] == Null;
    forall r | 0 <= r < |log| && log[r].Called?
      ensures log[r].slot != j
    {
      if r < q {
        assert log[..q][r] == log[r];
      } else {
        assert log[..r] == log[..q] + log[q..r];
        SlotsCompose(obs, log[..q], log[q..r]);
        EmptyStaysEmpty(Slots(obs, log[..q]), log[q..r], j);
        assert CallsLive(obs, log, r);
      }
    }
  }

  /** `pre` begins with the call of `ob` in slot `i` and contains no other call. */
  ghost predicate OneCall(pre: seq<Event>, i: nat, ob: nat) {
    |pre| > 0 && pre[0] == Called(i, ob) && forall q :: 0 < q < |pre| ==> !pre[q].Called?
  }

  lemma SlotsShift(obs: seq<Slot>, pre: seq<Event>, log: seq<Event>, q: nat)
    requires q <= |log|
    ensures (pre + log)[..|pre| + q] == pre + log[..q]
    ensures Slots(obs, (pre + log)[..|pre| + q]) == Slots(Slots(obs, pre), log[..q])
  {
    assert (pre + log)[..|pre| + q] == pre + log[..q];
    SlotsCompose(obs, pre, log[..q]);
  }

  lemma CalledLater(pre: seq<Event>, log: seq<Event>, j: nat)
    requires IsCalled(log, j)
    ensures IsCalled(pre + log, j)
  {
    var q :| 0 <= q < |log| && log[q].Called? && log[q].slot == j;
    assert (pre + log)[|pre| + q] == log[q];
  }

  lemma GoneLater(obs: seq<Slot>, pre: seq<Event>, log: seq<Event>, j: nat)
    requires CallsBelow(pre, j) && GoneBefore(Slots(obs, pre), log, j)
    ensures GoneBefore(obs, pre + log, j)
  {
    var mid := Slots(obs, pre);
    var q :| 0 <= q <= |log| && CallsBelow(log[..q], j)
      && j < |Slots(mid, log[..q])| && Slots(mid, log[..q])[j] == Null;
    SlotsShift(obs, pre, log, q);
    var l := pre + log[..q];
    assert CallsBelow(l, j) by {
      forall r | 0 <= r < |l| && l[r].Called?
        ensures l[r].slot < j
      {
        if r >= |pre| {
          assert l[r] == log[..q][r - |pre|];
        }
      }
    }
  }

  /** Calls of live slots, in order, after a prefix whose only call is of the slot before. */
  lemma CallsShift(obs: seq<Slot>, i: nat, pre: seq<Event>, log: seq<Event>, q: nat)
    requires i < |obs| && obs[i] != Null && OneCall(pre, i, obs[i].ob)
    requires q < |pre + log| && (pre + log)[q].Called?
    requires q >= |pre| ==> i < log[q - |pre|].slot && CallsLive(Slots(obs, pre), log, q - |pre|)
    ensures CallsLive(obs, pre + log, q)
    ensures if q == 0 then (pre + log)[q].slot == i else q >= |pre| && (pre + log)[q].slot > i
  {
    if q >= |pre| {
      SlotsShift(obs, pre, log, q - |pre|);
    } else {
      assert (pre + log)[..0] == [];
    }
  }

  /** The call of slot `i` and the reaction to it, followed by a notification from slot `i + 1` on. */
  lemma DeliveredAfterCall(obs: seq<Slot>, i: nat, pre: seq<Event>, rest: Outcome)
    requires i < |obs| && obs[i] != Null && OneCall(pre, i, obs[i].ob)
    requires Delivered(Slots(obs, pre), i + 1, rest)
    ensures Delivered(obs, i, Outcome(rest.obs, pre + rest.log))
  {
    var log := pre + rest.log;
    SlotsCompose(obs, pre, rest.log);
    forall q | 0 <= q < |log| && log[q].Called?
      ensures i <= log[q].slot && CallsLive(obs, log, q)
      ensures if q == 0 then log[q].slot == i else q >= |pre| && log[q].slot > i
    {
      if q >= |pre| {
        assert rest.log[q - |pre|].Called?;
      }
      CallsShift(obs, i, pre, rest.log, q);
    }
    forall q, r | 0 <= q < r < |log| && log[q].Called? && log[r].Called?
      ensures log[q].slot < log[r].slot
    {
      if q > 0 {
        assert log[q] == rest.log[q - |pre|] && log[r] == rest.log[r - |pre|];
      }
    }
    forall j | i <= j < |rest.obs|
      ensures IsCalled(log, j) <==> !GoneBefore(obs, log, j)
    {
      if GoneBefore(obs, log, j) {
        GoneIsNotCalled(obs, log, j);
      } else if j == i {
        assert log[0].slot == i;
      } else if IsCalled(rest.log, j) {
        CalledLater(pre, rest.log, j);
      } else {
        GoneLater(obs, pre, rest.log, j);
      }
    }
  }

  /** The promise of `notify`, for all callbacks that subscribe, unsubscribe and clear as they like. */
  lemma {:induction false} DeliverKeepsPromise(obs: seq<Slot>, i: nat, reactions: seq<Reaction>)
    requires AllFlat(reactions)
    ensures Delivered(obs, i, Deliver(obs, i, reactions))
    decreases reactions, |obs| - i
  {
    var r := Deliver(obs, i, reactions);
    if i >= |obs| {
    } else if obs[i] == Null {
      DeliverKeepsPromise(obs, i + 1, reactions);
      EmptyStaysEmpty(obs, r.log, i);
      assert r.log[..0] == [];
      assert GoneBefore(obs, r.log, i);
    } else if reactions == [] {
      DeliverKeepsPromise(obs, i + 1, reactions);
      DeliveredAfterCall(obs, i, [Called(i, obs[i].ob)], Deliver(obs, i + 1, reactions));
    } else {
      var reaction := React(obs, reactions[0].ops);
      FlatReact(obs, reactions[0].ops);
      DeliverKeepsPromise(reaction.obs, i + 1, reactions[1..]);
      var pre := [Called(i, obs[i].ob)] + reaction.log;
      assert pre[1..] == reaction.log;
      DeliveredAfterCall(obs, i, pre, Deliver(reaction.obs, i + 1, reactions[1..]));
    }
  }

  // ---- Notifications inside callbacks ----

  /** How many of the first `m` slots are empty. */
  function Gaps(obs: seq<Slot>, m: nat): (n: nat)
    ensures n <= m
  {
    if m == 0 || obs == [] then 0 else (if obs[0] == Null then 1 else 0) + Gaps(obs[1..], m - 1)
  }

  /**
   How many of the first `b` slots are squeezed out by the notifications in `op`: each of
   them, when it ends, squeezes out those that are empty then.
   */
  function SqueezedBy(obs: seq<Slot>, b: nat, op: Op): (d: nat)
    ensures d <= b
    decreases op, 0
  {
    match op
    case Notify(reactions) =>
      var d := SqueezedDuring(obs, b, 0, reactions);
      d + Gaps(Deliver(obs, 0, reactions).obs, b - d)
    case _ => 0
  }

  function SqueezedIn(obs: seq<Slot>, b: nat, ops: seq<Op>): (d: nat)
    ensures d <= b
    decreases ops, 0
  {
    if ops == [] then 0
    else
      var d := SqueezedBy(obs, b, ops[0]);
      d + SqueezedIn(Perform(obs, ops[0]).obs, b - d, ops[1..])
  }

  function SqueezedDuring(obs: seq<Slot>, b: nat, i: nat, reactions: seq<Reaction>): (d: nat)
    ensures d <= b
    decreases reactions, 1, |obs| - i
  {
    if i >= |obs| then 0
    else if obs[i] == Null || reactions == [] then SqueezedDuring(obs, b, i + 1, reactions)
    else
      var d := SqueezedIn(obs, b, reactions[0].ops);
      d + SqueezedDuring(React(obs, reactions[0].ops).obs, b - d, i + 1, reactions[1..])
  }

  /**
   What was behind the first `b` slots is now behind the first `m`: the observers there
   are those that the history makes of the observers that were there before.
   */
  ghost predicate Behind(obs: seq<Slot>, b: nat, after: Outcome, m: nat) {
    b <= |obs| && m <= |after.obs| && Live(after.obs[m..]) == Members(Live(obs[b..]), after.log)
  }

  lemma SubscribedBehind(obs: seq<Slot>, b: nat, who: Slot)
    requires b <= |obs|
    ensures Behind(obs, b, Subscribed(obs, who), b)
  {
    if who != Null && IndexOf(obs, who) == |obs| {
      assert (obs + [who])[b..] == obs[b..] + [who];
      LiveOfConcat(obs[b..], [who]);
      assert Live([who]) == [who.ob];
      assert Subscribed(obs, who).log[1..] == [];
    }
  }

  lemma UnsubscribedBehind(obs: seq<Slot>, b: nat, who: Slot)
    requires WellFormed(obs) && b <= |obs|
    ensures Behind(obs, b, Unsubscribed(obs, who), b)
  {
    var i := IndexOf(obs, who);
    if who != Null && i < |obs| {
      assert Unsubscribed(obs, who).log[1..] == [];
      if i < b {
        assert obs[i := Null][b..] == obs[b..];
        LiveContains(obs[b..], who.ob);
        WithoutAbsent(Live(obs[b..]), who.ob);
      } else {
        assert obs[i := Null][b..] == obs[b..][i - b := Null];
        RemoveSlot(obs[b..], i - b);
      }
    }
  }

  lemma {:induction false} RemovalsBehind(obs: seq<Slot>, b: nat, i: nat)
    requires WellFormed(obs) && i <= b <= |obs|
    ensures Members(Live(obs[b..]), Removals(obs, i)) == []
    decreases b - i
  {
    if i == b {
      RemovalsEmpty(obs, b);
    } else {
      RemovalsBehind(obs, b, i + 1);
      if obs[i] != Null {
        LiveContains(obs[b..], obs[i].ob);
        WithoutAbsent(Live(obs[b..]), obs[i].ob);
        assert Removals(obs, i)[1..] == Removals(obs, i + 1);
      }
    }
  }

  lemma ClearedBehind(obs: seq<Slot>, b: nat)
    requires WellFormed(obs) && b <= |obs|
    ensures Behind(obs, b, Cleared(obs), b)
  {
    RemovalsBehind(obs, b, 0);
    LiveOfNulls(Cleared(obs).obs[b..]);
  }

  /** Shrinking moves what is behind the first `m` slots forward by the number of gaps among them. */
  lemma {:induction false} ShrunkBehind(obs: seq<Slot>, m: nat)
    requires m <= |obs|
    ensures m - Gaps(obs, m) <= |Shrunk(obs)|
    ensures Shrunk(obs)[m - Gaps(obs, m)..] == Shrunk(obs[m..])
  {
    if m == 0 {
      assert obs[0..] == obs;
    } else {
      ShrunkBehind(obs[1..], m - 1);
      assert obs[1..][m - 1..] == obs[m..];
    }
  }

  lemma {:induction false} PerformBehind(obs: seq<Slot>, b: nat, op: Op, after: Outcome, m: nat)
    requires WellFormed(obs) && b <= |obs| && after == Perform(obs, op) && m == b - SqueezedBy(obs, b, op)
    ensures Behind(obs, b, after, m)
    decreases op, 0
  {
    match op
    case Subscribe(who) => SubscribedBehind(obs, b, who);
    case Unsubscribe(who) => UnsubscribedBehind(obs, b, who);
    case Clear => ClearedBehind(obs, b);
    case Notify(reactions) =>
      var d, n := Deliver(obs, 0, reactions), b - SqueezedDuring(obs, b, 0, reactions);
      DeliverBehind(obs, b, 0, reactions, d, n);
      EndBehind(obs, b, d, n);
  }

  /** The end of a notification. */
  lemma EndBehind(obs: seq<Slot>, b: nat, d: Outcome, m: nat)
    requires Behind(obs, b, d, m)
    ensures Behind(obs, b, Outcome(Shrunk(d.obs), d.log), m - Gaps(d.obs, m))
  {
    ShrunkBehind(d.obs, m);
    ShrunkKeepsLive(d.obs[m..]);
  }

  lemma BehindComposes(obs: seq<Slot>, b: nat, first: Outcome, m: nat, rest: Outcome, n: nat)
    requires Behind(obs, b, first, m) && Behind(first.obs, m, rest, n)
    ensures Behind(obs, b, Outcome(rest.obs, first.log + rest.log), n)
  {
    LogsCompose(Live(obs[b..]), first.log, rest.log);
  }

  lemma PerformWellFormed(obs: seq<Slot>, op: Op)
    requires WellFormed(obs)
    ensures WellFormed(Perform(obs, op).obs)
  {
    PerformRefines(obs, op);
  }

  lemma ReactWellFormed(obs: seq<Slot>, ops: seq<Op>)
    requires WellFormed(obs)
    ensures WellFormed(React(obs, ops).obs)
  {
    ReactRefines(obs, ops);
  }

  lemma ReactStepBehind(obs: seq<Slot>, b: nat, ops: seq<Op>,
                        first: Outcome, m: nat, rest: Outcome, n: nat, after: Outcome)
    requires ops != [] && first == Perform(obs, ops[0])
    requires rest == React(first.obs, ops[1..]) && after == React(obs, ops)
    requires Behind(obs, b, first, m) && Behind(first.obs, m, rest, n)
    ensures Behind(obs, b, after, n)
  {
    BehindComposes(obs, b, first, m, rest, n);
  }

  lemma {:induction false} ReactBehind(obs: seq<Slot>, b: nat, ops: seq<Op>, after: Outcome, n: nat)
    requires WellFormed(obs) && b <= |obs| && after == React(obs, ops) && n == b - SqueezedIn(obs, b, ops)
    ensures Behind(obs, b, after, n)
    decreases ops, 0
  {
    if ops != [] {
      var first, m := Perform(obs, ops[0]), b - SqueezedBy(obs, b, ops[0]);
      var rest := React(first.obs, ops[1..]);
      PerformBehind(obs, b, ops[0], first, m);
      PerformWellFormed(obs, ops[0]);
      ReactBehind(first.obs, m, ops[1..], rest, n);
      ReactStepBehind(obs, b, ops, first, m, rest, n, after);
    }
  }

  lemma CallBehind(obs: seq<Slot>, b: nat, i: nat)
    requires b <= |obs| && i < |obs| && obs[i] != Null
    ensures Behind(obs, b, Outcome(obs, [Called(i, obs[i].ob)]), b)
  {
    assert [Called(i, obs[i].ob)][1..] == [];
  }

  /** A call, what happens during it, and the rest of the notification. */
  lemma TurnBehind(obs: seq<Slot>, b: nat, i: nat, r: Outcome, m: nat, rest: Outcome, n: nat)
    requires i < |obs| && obs[i] != Null && Behind(obs, b, r, m) && Behind(r.obs, m, rest, n)
    ensures Behind(obs, b, Outcome(rest.obs, [Called(i, obs[i].ob)] + r.log + rest.log), n)
  {
    var call := Outcome(obs, [Called(i, obs[i].ob)]);
    CallBehind(obs, b, i);
    BehindComposes(obs, b, call, b, r, m);
    BehindComposes(obs, b, Outcome(r.obs, call.log + r.log), m, rest, n);
  }

  lemma DeliverTurnBehind(obs: seq<Slot>, b: nat, i: nat, reactions: seq<Reaction>,
                          r: Outcome, m: nat, rest: Outcome, n: nat, after: Outcome)
    requires i < |obs| && obs[i] != Null && reactions != [] && r == React(obs, reactions[0].ops)
    requires rest == Deliver(r.obs, i + 1, reactions[1..]) && after == Deliver(obs, i, reactions)
    requires Behind(obs, b, r, m) && Behind(r.obs, m, rest, n)
    ensures Behind(obs, b, after, n)
  {
    TurnBehind(obs, b, i, r, m, rest, n);
  }

  lemma DeliverQuietBehind(obs: seq<Slot>, b: nat, i: nat, rest: Outcome, m: nat, after: Outcome)
    requires i < |obs| && obs[i] != Null && rest == Deliver(obs, i + 1, []) && after == Deliver(obs, i, [])
    requires Behind(obs, b, rest, m)
    ensures Behind(obs, b, after, m)
  {
    CallBehind(obs, b, i);
    BehindComposes(obs, b, Outcome(obs, [Called(i, obs[i].ob)]), b, rest, m);
  }

  lemma {:induction false} DeliverBehind(obs: seq<Slot>, b: nat, i: nat, reactions: seq<Reaction>,
                                         after: Outcome, n: nat)
    requires WellFormed(obs) && b <= |obs|
    requires after == Deliver(obs, i, reactions) && n == b - SqueezedDuring(obs, b, i, reactions)
    ensures Behind(obs, b, after, n)
    decreases reactions, 1, |obs| - i
  {
    if i < |obs| {
      if obs[i] == Null {
        DeliverBehind(obs, b, i + 1, reactions, after, n);
      } else if reactions == [] {
        var rest := Deliver(obs, i + 1, reactions);
        DeliverBehind(obs, b, i + 1, reactions, rest, n);
        DeliverQuietBehind(obs, b, i, rest, n, after);
      } else {
        var ops := reactions[0].ops;
        var r, m := React(obs, ops), b - SqueezedIn(obs, b, ops);
        var rest := Deliver(r.obs, i + 1, reactions[1..]);
        ReactBehind(obs, b, ops, r, m);
        ReactWellFormed(obs, ops);
        DeliverBehind(r.obs, m, i + 1, reactions[1..], rest, n);
        DeliverTurnBehind(obs, b, i, reactions, r, m, rest, n, after);
      }
    }
  }

  /** The slots from `lo` up to and not including `hi`, as far as they exist. */
  function Window(obs: seq<Slot>, lo: nat, hi: nat): seq<Slot>
    requires lo <= hi
  {
    if hi <= |obs| then obs[lo..hi] else if lo <= |obs| then obs[lo..] else []
  }

  /**
   One turn of the loop of a notification: the observer it calls, what happens during the
   call, and who is in the slots that the loop then steps over although they have moved
   there from behind it.
   */
  datatype Turn = Turn(slot: nat, ob: nat, log: seq<Event>, missed: seq<nat>)

  /** The turns of the loop of `notify` itself, from slot `i` on. */
  function Turns(obs: seq<Slot>, i: nat, reactions: seq<Reaction>): seq<Turn>
    decreases reactions, |obs| - i
  {
    if i >= |obs| then []
    else if obs[i] == Null then Turns(obs, i + 1, reactions)
    else if reactions == [] then [Turn(i, obs[i].ob, [], [])] + Turns(obs, i + 1, reactions)
    else
      [TurnAt(obs, i, reactions[0].ops)] + Turns(React(obs, reactions[0].ops).obs, i + 1, reactions[1..])
  }

  /** The turn that calls slot `i`, whose observer then performs `ops`. */
  function TurnAt(obs: seq<Slot>, i: nat, ops: seq<Op>): Turn
    requires i < |obs| && obs[i] != Null
  {
    var r, d := React(obs, ops), SqueezedIn(obs, i + 1, ops);
    Turn(i, obs[i].ob, r.log, Live(Window(r.obs, i + 1 - d, i + 1)))
  }

  function LogOf(turns: seq<Turn>): seq<Event> {
    if turns == [] then [] else [Called(turns[0].slot, turns[0].ob)] + turns[0].log + LogOf(turns[1..])
  }

  /** The turns make up the history of the notification. */
  lemma {:induction false} TurnsMakeTheLog(obs: seq<Slot>, i: nat, reactions: seq<Reaction>)
    ensures Deliver(obs, i, reactions).log == LogOf(Turns(obs, i, reactions))
    decreases reactions, |obs| - i
  {
    if i < |obs| {
      if obs[i] == Null || reactions == [] {
        TurnsMakeTheLog(obs, i + 1, reactions);
      } else {
        TurnsMakeTheLog(React(obs, reactions[0].ops).obs, i + 1, reactions[1..]);
      }
      if obs[i] != Null {
        var turns := Turns(obs, i, reactions);
        assert turns[1..] == Turns(if reactions == [] then obs else React(obs, reactions[0].ops).obs, i + 1,
                                   if reactions == [] then [] else reactions[1..]);
      }
    }
  }

  /**
   The observers still to be called are a queue. Each turn calls the first of it; what
   happens during the call adds at its end and removes from it; and those missed in the
   turn are lost from its front. At the end of the notification nobody is left.
   */
  ghost predicate IsQueue(pending: seq<nat>, turns: seq<Turn>)
    decreases |turns|
  {
    if turns == [] then pending == []
    else
      && pending != [] && turns[0].ob == pending[0]
      && var left := Members(pending[1..], turns[0].log);
      && turns[0].missed <= left
      && IsQueue(left[|turns[0].missed|..], turns[1..])
  }

  /** The same when nobody is lost: every subscription is called when its turn comes, unless removed before. */
  ghost predicate AllServed(pending: seq<nat>, turns: seq<Turn>)
    decreases |turns|
  {
    if turns == [] then pending == []
    else pending != [] && turns[0].ob == pending[0] && AllServed(Members(pending[1..], turns[0].log), turns[1..])
  }

  function From(obs: seq<Slot>, i: nat): seq<Slot> {
    if i <= |obs| then obs[i..] else []
  }

  lemma LiveFrom(obs: seq<Slot>, i: nat)
    requires i < |obs|
    ensures Live(From(obs, i)) == (if obs[i] == Null then [] else [obs[i].ob]) + Live(From(obs, i + 1))
  {
    assert obs[i..][1..] == obs[i + 1..];
  }

  lemma WindowSplits(obs: seq<Slot>, lo: nat, hi: nat)
    requires lo <= hi && lo <= |obs|
    ensures Live(obs[lo..]) == Live(Window(obs, lo, hi)) + Live(From(obs, hi))
  {
    LiveOfConcat(Window(obs, lo, hi), From(obs, hi));
    assert obs[lo..] == Window(obs, lo, hi) + From(obs, hi);
  }

  /** After a callback: who was still to be called then, who of them is missed, and who is not. */
  lemma LeftAfterCall(obs: seq<Slot>, i: nat, ops: seq<Op>)
    requires WellFormed(obs) && i < |obs| && obs[i] != Null
    ensures var turn, r := TurnAt(obs, i, ops), React(obs, ops);
      && Members(Live(From(obs, i + 1)), turn.log) == turn.missed + Live(From(r.obs, i + 1))
      && (turn.missed != [] ==> turn.missed[0] !in Live(From(r.obs, i + 1)))
  {
    var r, d := React(obs, ops), SqueezedIn(obs, i + 1, ops);
    ReactBehind(obs, i + 1, ops, r, i + 1 - d);
    ReactWellFormed(obs, ops);
    BehindSplits(obs, i + 1, r, i + 1 - d, i + 1);
    WindowApart(r.obs, i + 1 - d, i + 1);
  }

  lemma BehindSplits(obs: seq<Slot>, b: nat, r: Outcome, lo: nat, hi: nat)
    requires Behind(obs, b, r, lo) && lo <= hi
    ensures Members(Live(From(obs, b)), r.log) == Live(Window(r.obs, lo, hi)) + Live(From(r.obs, hi))
  {
    WindowSplits(r.obs, lo, hi);
  }

  /** Who lives in the window does not live behind it. */
  lemma WindowApart(obs: seq<Slot>, lo: nat, hi: nat)
    requires WellFormed(obs) && lo <= hi
    ensures var w := Live(Window(obs, lo, hi)); w != [] ==> w[0] !in Live(From(obs, hi))
  {
    var w := Live(Window(obs, lo, hi));
    if w != [] {
      LiveContains(Window(obs, lo, hi), w[0]);
      LiveContains(From(obs, hi), w[0]);
    }
  }

  /** One turn more at the front of a queue. */
  lemma QueueStep(pending: seq<nat>, turn: Turn, rest: seq<Turn>, next: seq<nat>)
    requires pending != [] && pending[0] == turn.ob
    requires Members(pending[1..], turn.log) == turn.missed + next
    ensures IsQueue(pending, [turn] + rest) <==> IsQueue(next, rest)
    ensures AllServed(pending, [turn] + rest) <==> AllServed(turn.missed + next, rest)
  {
    assert ([turn] + rest)[1..] == rest;
    assert (turn.missed + next)[|turn.missed|..] == next;
  }

  /** If somebody is missed in a turn, the next turn is not of the one whose turn it is. */
  lemma MissedIsNotServed(missed: seq<nat>, next: seq<nat>, rest: seq<Turn>)
    requires missed != [] && missed[0] !in next && IsQueue(next, rest)
    ensures !AllServed(missed + next, rest)
  {
  }

  /**
   What a notification does for every callback script, notifications inside callbacks
   included: those it misses in a turn, and nobody else, are the observers in the slots
   i+1-d..i when the callback returns, where i is the slot called and d is the number of
   slots up to i that were squeezed out during the callback.
   */
  lemma NotificationIsQueue(obs: seq<Slot>, i: nat, reactions: seq<Reaction>)
    requires WellFormed(obs)
    ensures IsQueue(Live(From(obs, i)), Turns(obs, i, reactions))
  {
    QueueFrom(obs, i, reactions, Live(From(obs, i)), Turns(obs, i, reactions));
  }

  lemma {:induction false} QueueFrom(obs: seq<Slot>, i: nat, reactions: seq<Reaction>,
                                     pending: seq<nat>, turns: seq<Turn>)
    requires WellFormed(obs) && pending == Live(From(obs, i)) && turns == Turns(obs, i, reactions)
    ensures IsQueue(pending, turns)
    decreases reactions, |obs| - i
  {
    if i < |obs| {
      LiveFrom(obs, i);
      if obs[i] == Null {
        QueueFrom(obs, i + 1, reactions, pending, turns);
      } else if reactions == [] {
        var next, rest := Live(From(obs, i + 1)), Turns(obs, i + 1, reactions);
        QueueFrom(obs, i + 1, reactions, next, rest);
        QueueStep(pending, Turn(i, obs[i].ob, [], []), rest, next);
      } else {
        var r := React(obs, reactions[0].ops);
        var next, rest := Live(From(r.obs, i + 1)), Turns(r.obs, i + 1, reactions[1..]);
        ReactWellFormed(obs, reactions[0].ops);
        LeftAfterCall(obs, i, reactions[0].ops);
        QueueFrom(r.obs, i + 1, reactions[1..], next, rest);
        QueueStep(pending, TurnAt(obs, i, reactions[0].ops), rest, next);
      }
    }
  }

  /** Nobody is missed in a turn if and only if those slots are empty. */
  lemma {:induction false} NobodyLives(obs: seq<Slot>)
    ensures Live(obs) == [] <==> forall k :: 0 <= k < |obs| ==> obs[k] == Null
  {
    if obs != [] {
      NobodyLives(obs[1..]);
      assert forall k :: 0 < k < |obs| ==> obs[k] == obs[1..][k - 1];
    }
  }

  ghost predicate NobodyMissed(turns: seq<Turn>) {
    forall k :: 0 <= k < |turns| ==> turns[k].missed == []
  }

  /**
   The exact condition for the promise under any callback script: everyone is called when
   their turn comes, unless removed before, if and only if nobody is missed in any turn.
   */
  lemma {:induction false} ServedIffNobodyMissed(obs: seq<Slot>, i: nat, reactions: seq<Reaction>)
    requires WellFormed(obs)
    ensures AllServed(Live(From(obs, i)), Turns(obs, i, reactions)) <==> NobodyMissed(Turns(obs, i, reactions))
    decreases reactions, |obs| - i
  {
    if i < |obs| {
      LiveFrom(obs, i);
      if obs[i] == Null {
        ServedIffNobodyMissed(obs, i + 1, reactions);
      } else if reactions == [] {
        ServedIffNobodyMissed(obs, i + 1, reactions);
        NotificationIsQueue(obs, i + 1, reactions);
        ServedStep(Live(From(obs, i)), Turn(i, obs[i].ob, [], []), Turns(obs, i + 1, reactions),
                   Live(From(obs, i + 1)));
      } else {
        var ops := reactions[0].ops;
        var r := React(obs, ops);
        ReactWellFormed(obs, ops);
        LeftAfterCall(obs, i, ops);
        ServedIffNobodyMissed(r.obs, i + 1, reactions[1..]);
        NotificationIsQueue(r.obs, i + 1, reactions[1..]);
        ServedStep(Live(From(obs, i)), TurnAt(obs, i, ops), Turns(r.obs, i + 1, reactions[1..]),
                   Live(From(r.obs, i + 1)));
      }
    }
  }

  lemma ServedStep(pending: seq<nat>, turn: Turn, rest: seq<Turn>, next: seq<nat>)
    requires pending != [] && pending[0] == turn.ob
    requires Members(pending[1..], turn.log) == turn.missed + next
    requires turn.missed != [] ==> turn.missed[0] !in next
    requires IsQueue(next, rest) && (AllServed(next, rest) <==> NobodyMissed(rest))
    ensures AllServed(pending, [turn] + rest) <==> NobodyMissed([turn] + rest)
  {
    QueueStep(pending, turn, rest, next);
    if turn.missed == [] {
      assert turn.missed + next == next;
      assert forall k :: 0 <= k < |rest| ==> ([turn] + rest)[k + 1] == rest[k];
    } else {
      MissedIsNotServed(turn.missed, next, rest);
      assert ([turn] + rest)[0] == turn;
    }
  }

  /** Nobody is missed in a turn in which no notification that ends finds an empty slot up to the one called. */
  lemma NoGapsNobodyMissed(obs: seq<Slot>, i: nat, ops: seq<Op>)
    requires i < |obs| && obs[i] != Null && SqueezedIn(obs, i + 1, ops) == 0
    ensures TurnAt(obs, i, ops).missed == []
  {
  }

  /** In no turn does a nested notification that ends find an empty slot up to the one called. */
  ghost predicate NothingSqueezed(obs: seq<Slot>, i: nat, reactions: seq<Reaction>)
    decreases reactions, |obs| - i
  {
    if i >= |obs| || reactions == [] then true
    else if obs[i] == Null then NothingSqueezed(obs, i + 1, reactions)
    else
      && SqueezedIn(obs, i + 1, reactions[0].ops) == 0
      && NothingSqueezed(React(obs, reactions[0].ops).obs, i + 1, reactions[1..])
  }

  lemma {:induction false} NothingSqueezedNobodyMissed(obs: seq<Slot>, i: nat, reactions: seq<Reaction>)
    requires NothingSqueezed(obs, i, reactions)
    ensures NobodyMissed(Turns(obs, i, reactions))
    decreases reactions, |obs| - i
  {
    if i < |obs| {
      if obs[i] == Null || reactions == [] {
        NothingSqueezedNobodyMissed(obs, i + 1, reactions);
      } else {
        NoGapsNobodyMissed(obs, i, reactions[0].ops);
        NothingSqueezedNobodyMissed(React(obs, reactions[0].ops).obs, i + 1, reactions[1..]);
      }
    }
  }

  // A condition on the event and the callbacks, known before the notification.

  ghost predicate Full(obs: seq<Slot>) {
    forall k :: 0 <= k < |obs| ==> obs[k] != Null
  }

  /** Neither the operation nor a callback of a notification in it ever removes an observer. */
  predicate NeverRemoves(op: Op)
    decreases op, 0
  {
    match op
    case Subscribe(_) => true
    case Unsubscribe(_) => false
    case Clear => false
    case Notify(reactions) => AllNeverRemove(reactions)
  }

  predicate OpsNeverRemove(ops: seq<Op>)
    decreases ops, 0
  {
    ops == [] || (NeverRemoves(ops[0]) && OpsNeverRemove(ops[1..]))
  }

  predicate AllNeverRemove(reactions: seq<Reaction>)
    decreases reactions, 1
  {
    reactions == [] || (OpsNeverRemove(reactions[0].ops) && AllNeverRemove(reactions[1..]))
  }

  lemma {:induction false} FullHasNoGaps(obs: seq<Slot>, m: nat)
    requires Full(obs)
    ensures Gaps(obs, m) == 0 && Shrunk(obs) == obs
    decreases |obs|
  {
    if obs != [] {
      FullHasNoGaps(obs[1..], if m == 0 then 0 else m - 1);
    }
  }

  lemma {:induction false} PerformKeepsFull(obs: seq<Slot>, b: nat, op: Op)
    requires Full(obs) && NeverRemoves(op)
    ensures Full(Perform(obs, op).obs) && SqueezedBy(obs, b, op) == 0
    decreases op, 0
  {
    if op.Notify? {
      DeliverKeepsFull(obs, b, 0, op.reactions);
      FullHasNoGaps(Deliver(obs, 0, op.reactions).obs, b);
    }
  }

  lemma {:induction false} ReactKeepsFull(obs: seq<Slot>, b: nat, ops: seq<Op>)
    requires Full(obs) && OpsNeverRemove(ops)
    ensures Full(React(obs, ops).obs) && SqueezedIn(obs, b, ops) == 0
    decreases ops, 0
  {
    if ops != [] {
      PerformKeepsFull(obs, b, ops[0]);
      ReactKeepsFull(Perform(obs, ops[0]).obs, b, ops[1..]);
    }
  }

  lemma {:induction false} DeliverKeepsFull(obs: seq<Slot>, b: nat, i: nat, reactions: seq<Reaction>)
    requires Full(obs) && AllNeverRemove(reactions)
    ensures Full(Deliver(obs, i, reactions).obs) && SqueezedDuring(obs, b, i, reactions) == 0
    decreases reactions, 1, |obs| - i
  {
    if i < |obs| {
      if reactions == [] {
        DeliverKeepsFull(obs, b, i + 1, reactions);
      } else {
        ReactKeepsFull(obs, b, reactions[0].ops);
        DeliverKeepsFull(React(obs, reactions[0].ops).obs, b, i + 1, reactions[1..]);
      }
    }
  }

  lemma {:induction false} FullSqueezesNothing(obs: seq<Slot>, i: nat, reactions: seq<Reaction>)
    requires Full(obs) && AllNeverRemove(reactions)
    ensures NothingSqueezed(obs, i, reactions)
    decreases reactions, |obs| - i
  {
    if i < |obs| && reactions != [] {
      ReactKeepsFull(obs, i + 1, reactions[0].ops);
      FullSqueezesNothing(React(obs, reactions[0].ops).obs, i + 1, reactions[1..]);
    }
  }

  /**
   If no slot is empty, and no callback of the notification or of one nested in it, however
   deep, unsubscribes or clears, then nobody is missed.
   */
  lemma NeverRemovingMissesNobody(obs: seq<Slot>, i: nat, reactions: seq<Reaction>)
    requires Full(obs) && AllNeverRemove(reactions)
    ensures NobodyMissed(Turns(obs, i, reactions))
  {
    FullSqueezesNothing(obs, i, reactions);
    NothingSqueezedNobodyMissed(obs, i, reactions);
  }

  lemma {:induction false} FlatSqueezesNothing(obs: seq<Slot>, b: nat, ops: seq<Op>)
    requires Flat(ops)
    ensures SqueezedIn(obs, b, ops) == 0
    decreases |ops|
  {
    if ops != [] {
      FlatSqueezesNothing(Perform(obs, ops[0]).obs, b, ops[1..]);
    }
  }

  /** So nobody is missed by a notification whose callbacks do not notify. */
  lemma {:induction false} FlatMissesNobody(obs: seq<Slot>, i: nat, reactions: seq<Reaction>)
    requires AllFlat(reactions)
    ensures NobodyMissed(Turns(obs, i, reactions))
    decreases reactions, |obs| - i
  {
    if i < |obs| {
      if obs[i] == Null || reactions == [] {
        FlatMissesNobody(obs, i + 1, reactions);
      } else {
        FlatSqueezesNothing(obs, i + 1, reactions[0].ops);
        FlatMissesNobody(React(obs, reactions[0].ops).obs, i + 1, reactions[1..]);
      }
    }
  }

  /**
   A history in which somebody is missed. Three observers; the first unsubscribes itself
   and notifies. The nested notification squeezes out slot 0, so observer 1 moves to the
   slot just called, and the outer loop goes on with observer 2.
   */
  lemma NestedNotifySkips(obs: seq<Slot>, ops: seq<Op>)
    requires obs == [Holds(0), Holds(1), Holds(2)] && ops == [Unsubscribe(Holds(0)), Notify([])]
    ensures SqueezedIn(obs, 1, ops) == 1
    ensures Turns(obs, 0, [Reaction(ops)])
         == [Turn(0, 0, [Removed(0, 0), Called(1, 1), Called(2, 2)], [1]), Turn(1, 2, [], [])]
  {
    var obs2 := [Holds(1), Holds(2)];
    SkippingReaction(obs, ops);
    assert [Reaction(ops)][1..] == [];
    assert Window(obs2, 0, 1) == [Holds(1)] && Live([Holds(1)]) == [1];
    assert Turns(obs2, 2, []) == [];
    assert Turns(obs2, 1, []) == [Turn(1, 2, [], [])] + [];
  }

  /** Without callbacks that do anything, the slots stay as they are and nothing is squeezed out. */
  lemma {:induction false} QuietDelivery(obs: seq<Slot>, b: nat, i: nat)
    ensures Deliver(obs, i, []).obs == obs && SqueezedDuring(obs, b, i, []) == 0
    decreases |obs| - i
  {
    if i < |obs| {
      QuietDelivery(obs, b, i + 1);
    }
  }

  lemma SkippingNotify(obs: seq<Slot>, op: Op)
    requires obs == [Null, Holds(1), Holds(2)] && op == Notify([])
    ensures Perform(obs, op) == Outcome([Holds(1), Holds(2)], [Called(1, 1), Called(2, 2)])
    ensures SqueezedBy(obs, 1, op) == 1
  {
    var obs2 := obs[1..];
    QuietDelivery(obs, 1, 0);
    assert Deliver(obs, 3, []).log == [];
    assert Deliver(obs, 2, []).log == [Called(2, 2)] + [];
    assert Deliver(obs, 1, []).log == [Called(1, 1)] + [Called(2, 2)];
    assert obs2[1..] == [Holds(2)] && obs2[1..][1..] == [];
    assert Shrunk(obs2[1..]) == [Holds(2)] + Shrunk([]);
    assert Shrunk(obs) == [Holds(1), Holds(2)];
    assert Gaps(obs, 1) == 1 + Gaps(obs2, 0);
  }

  lemma SkippingReaction(obs: seq<Slot>, ops: seq<Op>)
    requires obs == [Holds(0), Holds(1), Holds(2)] && ops == [Unsubscribe(Holds(0)), Notify([])]
    ensures React(obs, ops) == Outcome([Holds(1), Holds(2)], [Removed(0, 0), Called(1, 1), Called(2, 2)])
    ensures SqueezedIn(obs, 1, ops) == 1
  {
    var obs1 := Perform(obs, ops[0]).obs;
    assert obs1 == [Null, Holds(1), Holds(2)];
    SkippingNotify(obs1, ops[1]);
    var last := ops[1..];
    assert last[0] == ops[1] && last[1..] == [];
    assert React(obs1, last).log == [Called(1, 1), Called(2, 2)] + [];
    assert SqueezedIn(obs1, 1, last) == 1;
  }

  // ---- What the operations mean for the ordered set ----

  /** The ordered set after a subscription, an unsubscription or a `clear`. */
  function Effect(live: seq<nat>, op: Op): seq<nat>
    requires !op.Notify?
  {
    match op
    case Subscribe(who) => if who == Null || who.ob in live then live else live + [who.ob]
    case Unsubscribe(who) => if who == Null then live else Without(live, who.ob)
    case Clear => []
  }

  /** The ordered set after all of `ops`, in their order. */
  function Fold(live: seq<nat>, ops: seq<Op>): seq<nat>
    requires Flat(ops)
    decreases |ops|
  {
    if ops == [] then live else Fold(Effect(live, ops[0]), ops[1..])
  }

  /** The operations of the first `n` reactions, one after the other. */
  function Script(reactions: seq<Reaction>, n: nat): seq<Op> {
    if n == 0 || reactions == [] then [] else reactions[0].ops + Script(reactions[1..], n - 1)
  }

  /** The reactions of the callbacks after the next one. */
  function AfterNext(reactions: seq<Reaction>): seq<Reaction> {
    if reactions == [] then [] else reactions[1..]
  }

  /** The event, wherever its slot is, is this one. */
  predicate IsAdded(e: Event, ob: nat) {
    e.Added? && e.ob == ob
  }

  predicate IsRemoved(e: Event, ob: nat) {
    e.Removed? && e.ob == ob
  }

  /**
   `log` is what `op` does to an event whose observers are `live`. Slots do not matter here:
   a subscription adds who is not there, an unsubscription removes who is there, `clear`
   removes everyone in order, and a notification serves a queue, in which the callback of
   turn k performs the operations of reaction k.
   */
  ghost predicate Explains(live: seq<nat>, op: Op, log: seq<Event>)
    decreases op, 0
  {
    match op
    case Subscribe(who) =>
      if who == Null || who.ob in live then log == [] else |log| == 1 && IsAdded(log[0], who.ob)
    case Unsubscribe(who) =>
      if who == Null || who.ob !in live then log == [] else |log| == 1 && IsRemoved(log[0], who.ob)
    case Clear =>
      |log| == |live| && forall k :: 0 <= k < |log| ==> IsRemoved(log[k], live[k])
    case Notify(reactions) =>
      exists turns :: TurnsExplained(live, turns, reactions) && IsQueue(live, turns) && log == LogOf(turns)
  }

  /** `log` is what `ops` do, one after the other. */
  ghost predicate AllExplained(live: seq<nat>, ops: seq<Op>, log: seq<Event>)
    decreases ops, 0
  {
    if ops == [] then log == []
    else exists cut | 0 <= cut <= |log| ::
      && Explains(live, ops[0], log[..cut])
      && AllExplained(Members(live, log[..cut]), ops[1..], log[cut..])
  }

  /** The callback of each turn performs the operations of its reaction, and those beyond the last do nothing. */
  ghost predicate TurnsExplained(live: seq<nat>, turns: seq<Turn>, reactions: seq<Reaction>)
    decreases reactions, 1, |turns|
  {
    if turns == [] then true
    else if reactions == [] then turns[0].log == [] && TurnsExplained(live, turns[1..], [])
    else
      && AllExplained(live, reactions[0].ops, turns[0].log)
      && TurnsExplained(Members(live, turns[0].log), turns[1..], reactions[1..])
  }

  lemma {:induction false} RemovalsInOrder(obs: seq<Slot>, i: nat)
    requires i <= |obs|
    ensures |Removals(obs, i)| == |Live(obs[i..])|
    ensures forall k :: 0 <= k < |Removals(obs, i)| ==> IsRemoved(Removals(obs, i)[k], Live(obs[i..])[k])
    decreases |obs| - i
  {
    if i < |obs| {
      RemovalsInOrder(obs, i + 1);
      assert obs[i..][1..] == obs[i + 1..];
    }
  }

  lemma PrimitiveExplained(obs: seq<Slot>, op: Op)
    requires !op.Notify?
    ensures Explains(Live(obs), op, Perform(obs, op).log)
  {
    match op
    case Subscribe(who) =>
      if who != Null {
        LiveContains(obs, who.ob);
      }
    case Unsubscribe(who) =>
      if who != Null {
        LiveContains(obs, who.ob);
      }
    case Clear =>
      RemovalsInOrder(obs, 0);
      assert obs[0..] == obs;
  }

  /** Whatever the operation, its history is what the operation means. */
  lemma {:induction false} PerformExplained(obs: seq<Slot>, op: Op)
    requires WellFormed(obs)
    ensures Explains(Live(obs), op, Perform(obs, op).log)
    decreases op, 0
  {
    if op.Notify? {
      var turns := Turns(obs, 0, op.reactions);
      TurnsAreExplained(obs, 0, op.reactions, turns);
      TurnsMakeTheLog(obs, 0, op.reactions);
      NotificationIsQueue(obs, 0, op.reactions);
      assert From(obs, 0) == obs;
    } else {
      PrimitiveExplained(obs, op);
    }
  }

  lemma {:induction false} ReactExplained(obs: seq<Slot>, ops: seq<Op>)
    requires WellFormed(obs)
    ensures AllExplained(Live(obs), ops, React(obs, ops).log)
    decreases ops, 0
  {
    if ops != [] {
      var first := Perform(obs, ops[0]);
      PerformExplained(obs, ops[0]);
      PerformRefines(obs, ops[0]);
      ReactExplained(first.obs, ops[1..]);
      ExplainedFirst(Live(obs), ops, first.log, React(first.obs, ops[1..]).log);
    }
  }

  lemma ExplainedFirst(live: seq<nat>, ops: seq<Op>, first: seq<Event>, rest: seq<Event>)
    requires ops != [] && Explains(live, ops[0], first) && AllExplained(Members(live, first), ops[1..], rest)
    ensures AllExplained(live, ops, first + rest)
  {
    var log, cut := first + rest, |first|;
    assert log[..cut] == first && log[cut..] == rest;
  }

  /** Turn k of a notification performs the operations of reaction k. */
  lemma {:induction false} TurnsAreExplained(obs: seq<Slot>, i: nat, reactions: seq<Reaction>, turns: seq<Turn>)
    requires WellFormed(obs) && turns == Turns(obs, i, reactions)
    ensures TurnsExplained(Live(obs), turns, reactions)
    decreases reactions, 1, |obs| - i
  {
    if i < |obs| {
      if obs[i] == Null {
        TurnsAreExplained(obs, i + 1, reactions, turns);
      } else if reactions == [] {
        TurnsAreExplained(obs, i + 1, reactions, turns[1..]);
      } else {
        var ops := reactions[0].ops;
        ReactExplained(obs, ops);
        ReactRefines(obs, ops);
        TurnsAreExplained(React(obs, ops).obs, i + 1, reactions[1..], turns[1..]);
      }
    }
  }

  // Without notifications the meaning is a fold.

  lemma {:induction false} WithoutContains(live: seq<nat>, ob: nat, x: nat)
    ensures x in Without(live, ob) <==> x in live && x != ob
  {
    if live != [] {
      WithoutContains(live[1..], ob, x);
      assert live == [live[0]] + live[1..];
    }
  }

  lemma SomebodyIn(live: seq<nat>)
    ensures live == [] || exists x :: x in live
  {
    if live != [] {
      assert live[0] in live;
    }
  }

  lemma {:induction false} AllRemoved(live: seq<nat>, log: seq<Event>)
    requires forall k :: 0 <= k < |log| ==> log[k].Removed?
    requires forall x :: x in live ==> exists k :: 0 <= k < |log| && log[k].ob == x
    ensures Members(live, log) == []
    decreases |log|
  {
    if log == [] {
      SomebodyIn(live);
    } else {
      var left := Without(live, log[0].ob);
      forall x | x in left
        ensures exists k :: 0 <= k < |log[1..]| && log[1..][k].ob == x
      {
        WithoutContains(live, log[0].ob, x);
        var k :| 0 <= k < |log| && log[k].ob == x;
        assert log[1..][k - 1].ob == x;
      }
      AllRemoved(left, log[1..]);
    }
  }

  lemma ExplainedEffect(live: seq<nat>, op: Op, log: seq<Event>)
    requires !op.Notify? && Explains(live, op, log)
    ensures Members(live, log) == Effect(live, op)
  {
    match op
    case Subscribe(_) =>
      assert log != [] ==> log[1..] == [];
    case Unsubscribe(who) =>
      if log == [] && who != Null {
        WithoutAbsent(live, who.ob);
      }
      assert log != [] ==> log[1..] == [];
    case Clear =>
      forall x | x in live
        ensures exists k :: 0 <= k < |log| && log[k].ob == x
      {
        var k :| 0 <= k < |live| && live[k] == x;
        assert IsRemoved(log[k], live[k]);
      }
      AllRemoved(live, log);
  }

  lemma {:induction false} ExplainedFold(live: seq<nat>, ops: seq<Op>, log: seq<Event>)
    requires Flat(ops) && AllExplained(live, ops, log)
    ensures Members(live, log) == Fold(live, ops)
    decreases |ops|
  {
    if ops != [] {
      var cut :| 0 <= cut <= |log| && Explains(live, ops[0], log[..cut])
        && AllExplained(Members(live, log[..cut]), ops[1..], log[cut..]);
      var first, rest := log[..cut], log[cut..];
      assert first + rest == log;
      ExplainedEffect(live, ops[0], first);
      ExplainedFold(Members(live, first), ops[1..], rest);
      LogsCompose(live, first, rest);
    }
  }

  lemma {:induction false} FoldsCompose(live: seq<nat>, a: seq<Op>, b: seq<Op>)
    requires Flat(a) && Flat(b)
    ensures Flat(a + b) && Fold(live, a + b) == Fold(Fold(live, a), b)
    decreases |a|
  {
    if a == [] {
      assert a + b == b;
    } else {
      var rest := a[1..];
      assert (a + b)[0] == a[0] && (a + b)[1..] == rest + b;
      FoldsCompose(Effect(live, a[0]), rest, b);
    }
  }

  lemma {:induction false} ScriptIsFlat(reactions: seq<Reaction>, n: nat)
    requires AllFlat(reactions)
    ensures Flat(Script(reactions, n))
    decreases n
  {
    if n > 0 && reactions != [] {
      ScriptIsFlat(reactions[1..], n - 1);
    }
  }

  /** A call and what happens during it. */
  lemma MembersAfterTurn(live: seq<nat>, turn: Turn, rest: seq<Turn>)
    ensures Members(live, LogOf([turn] + rest)) == Members(Members(live, turn.log), LogOf(rest))
  {
    var call := [Called(turn.slot, turn.ob)];
    assert ([turn] + rest)[1..] == rest && call[1..] == [];
    LogsCompose(live, call, turn.log);
    LogsCompose(live, call + turn.log, LogOf(rest));
  }

  lemma {:induction false} TurnsFold(live: seq<nat>, turns: seq<Turn>, reactions: seq<Reaction>)
    requires AllFlat(reactions) && TurnsExplained(live, turns, reactions)
    ensures Flat(Script(reactions, |turns|)) && Members(live, LogOf(turns)) == Fold(live, Script(reactions, |turns|))
    decreases |turns|
  {
    ScriptIsFlat(reactions, |turns|);
    if turns != [] {
      var turn, rest := turns[0], turns[1..];
      assert [turn] + rest == turns;
      MembersAfterTurn(live, turn, rest);
      TurnsFold(Members(live, turn.log), rest, AfterNext(reactions));
      if reactions != [] {
        ExplainedFold(live, reactions[0].ops, turn.log);
        ScriptIsFlat(reactions[1..], |rest|);
        FoldsCompose(live, reactions[0].ops, Script(reactions[1..], |rest|));
      }
    }
  }

  /** What one operation does to the ordered set. */
  lemma PerformMeans(obs: seq<Slot>, op: Op)
    requires WellFormed(obs)
    ensures Explains(Live(obs), op, Perform(obs, op).log)
    ensures !op.Notify? ==> Live(Perform(obs, op).obs) == Effect(Live(obs), op)
  {
    PerformExplained(obs, op);
    PerformRefines(obs, op);
    if !op.Notify? {
      ExplainedEffect(Live(obs), op, Perform(obs, op).log);
    }
  }

  /** What a callback does to the ordered set: all of its operations, in order. */
  lemma ReactMeans(obs: seq<Slot>, ops: seq<Op>)
    requires WellFormed(obs)
    ensures AllExplained(Live(obs), ops, React(obs, ops).log)
    ensures Flat(ops) ==> Live(React(obs, ops).obs) == Fold(Live(obs), ops)
  {
    ReactExplained(obs, ops);
    ReactRefines(obs, ops);
    if Flat(ops) {
      ExplainedFold(Live(obs), ops, React(obs, ops).log);
    }
  }

  /** What a notification does to the ordered set: all operations of the callbacks that it reaches, in order. */
  lemma NotificationMeans(obs: seq<Slot>, reactions: seq<Reaction>, turns: seq<Turn>)
    requires WellFormed(obs) && turns == Turns(obs, 0, reactions)
    ensures TurnsExplained(Live(obs), turns, reactions)
    ensures AllFlat(reactions) ==> Flat(Script(reactions, |turns|))
    ensures AllFlat(reactions) ==>
      Live(Deliver(obs, 0, reactions).obs) == Fold(Live(obs), Script(reactions, |turns|))
  {
    TurnsAreExplained(obs, 0, reactions, turns);
    DeliverRefines(obs, 0, reactions);
    TurnsMakeTheLog(obs, 0, reactions);
    if AllFlat(reactions) {
      TurnsFold(Live(obs), turns, reactions);
    }
  }

  /** What a notification from the first slot on amounts to. */
  lemma NotificationSummary(obs: seq<Slot>, reactions: seq<Reaction>)
    requires WellFormed(obs)
    ensures var d := Deliver(obs, 0, reactions);
      && Faithful(Live(obs), d.log) && Live(Shrunk(d.obs)) == Members(Live(obs), d.log)
      && d.log == LogOf(Turns(obs, 0, reactions)) && IsQueue(Live(obs), Turns(obs, 0, reactions))
      && (AllFlat(reactions) ==> Delivered(obs, 0, d))
  {
    DeliverRefines(obs, 0, reactions);
    ShrunkKeepsLive(Deliver(obs, 0, reactions).obs);
    TurnsMakeTheLog(obs, 0, reactions);
    NotificationIsQueue(obs, 0, reactions);
    assert From(obs, 0) == obs;
    if AllFlat(reactions) {
      DeliverKeepsPromise(obs, 0, reactions);
    }
  }

  // ---- The class ----

  /** The pass of `_shrink`: it has read `before[..it2]` and kept its observers in `now[..it1]`. */
  ghost predicate Shrinking(before: seq<Slot>, now: seq<Slot>, it1: nat, it2: nat) {
    && it1 <= it2 <= |now| == |before|
    && now[it2..] == before[it2..]
    && now[..it1] + Shrunk(before[it2..]) == Shrunk(before)
  }

  lemma ShrinkingEnd(before: seq<Slot>, now: seq<Slot>, it1: nat, it2: nat)
    requires Shrinking(before, now, it1, it2) && it2 == |now|
    ensures it1 == |Shrunk(before)| && now[..it1] == Shrunk(before)
  {
  }

  lemma ShrinkingStep(before: seq<Slot>, now: seq<Slot>, it1: nat, it2: nat)
    requires Shrinking(before, now, it1, it2) && it2 < |now|
    ensures now[it2] == Null ==> Shrinking(before, now, it1, it2 + 1)
    ensures now[it2] != Null ==> Shrinking(before, now[it1 := now[it2]], it1 + 1, it2 + 1)
  {
  }

  class SynchronousEvent {
    var obs: seq<Slot>
    var n: nat

    /** The count is right and no observer is listed twice. */
    ghost predicate Valid()
      reads this
    {
      WellFormed(obs) && n == |Live(obs)|
    }

    constructor ()
      ensures Valid() && obs == []
    {
      obs, n := [], 0;
    }

    method Subscribe(who: Slot) returns (rc: int)
      requires Valid()
      modifies this
      ensures Valid() && obs == Subscribed(old(obs), who).obs
      ensures rc == if who != Null && who.ob !in old(Live(obs)) then 0 else -1
      ensures Live(obs) == if rc == 0 then old(Live(obs)) + [who.ob] else old(Live(obs))
    {
      if who == Null {
        return -1;
      }
      LiveContains(obs, who.ob);
      SubscribedRefines(obs, who);
      LiveOfConcat(obs, [who]);
      assert Live([who]) == [who.ob];
      if IndexOf(obs, who) != |obs| {
        return -1;
      }
      obs := obs + [who];
      n := n + 1;
      return 0;
    }

    method Unsubscribe(who: Slot) returns (rc: int)
      requires Valid()
      modifies this
      ensures Valid() && obs == Unsubscribed(old(obs), who).obs
      ensures rc == if who != Null && who.ob in old(Live(obs)) then 0 else -1
      ensures Live(obs) == if rc == 0 then Without(old(Live(obs)), who.ob) else old(Live(obs))
    {
      if who == Null {
        return -1;
      }
      LiveContains(obs, who.ob);
      UnsubscribedRefines(obs, who);
      var it := IndexOf(obs, who);
      if it == |obs| {
        return -1;
      }
      RemoveOne(obs, it);
      RemoveSlot(obs, it);
      obs := obs[it := Null];
      n := n - 1;
      return 0;
    }

    method Clear()
      requires Valid()
      modifies this
      ensures Valid() && obs == Cleared(old(obs)).obs && Live(obs) == []
    {
      ghost var before := obs;
      var it := 0;
      while it != |obs|
        invariant 0 <= it <= |obs| == |before|
        invariant forall j :: 0 <= j < it ==> obs[j] == Null
        decreases |obs| - it
      {
        obs := obs[it := Null];
        it := it + 1;
      }
      n := 0;
      LiveOfNulls(obs);
    }

    method Size() returns (r: nat)
      requires Valid()
      ensures r == |Live(obs)|
    {
      r := n;
    }

    /** `_shrink`: one pass with two cursors, then a truncation. */
    method Shrink()
      requires Valid()
      modifies this
      ensures Valid() && n == old(n) == |obs|
      ensures obs == Shrunk(old(obs)) && Live(obs) == old(Live(obs))
    {
      ghost var before := obs;
      if n == |obs| {
        FullIsShrunk(obs);
        return;
      }
      var it1, it2 := 0, 0;
      while it2 != |obs|
        invariant Shrinking(before, obs, it1, it2) && n == old(n)
        decreases |obs| - it2
      {
        ShrinkingStep(before, obs, it1, it2);
        if obs[it2] != Null {
          obs := obs[it1 := obs[it2]];
          it1 := it1 + 1;
        }
        it2 := it2 + 1;
      }
      ShrinkingEnd(before, obs, it1, it2);
      ShrunkKeepsLive(before);
      obs := obs[..n];
      ShrunkIsWellFormed(before);
    }

    /** `notify`: the log is what its callbacks did and which observers it called. */
    method Notify(reactions: seq<Reaction>) returns (log: seq<Event>)
      requires Valid()
      modifies this
      ensures Valid() && n == |obs|
      ensures obs == Shrunk(Deliver(old(obs), 0, reactions).obs)
      ensures log == Deliver(old(obs), 0, reactions).log
      ensures Faithful(old(Live(obs)), log) && Live(obs) == Members(old(Live(obs)), log)
      ensures log == LogOf(Turns(old(obs), 0, reactions)) && IsQueue(old(Live(obs)), Turns(old(obs), 0, reactions))
      ensures AllFlat(reactions) ==> Delivered(old(obs), 0, Deliver(old(obs), 0, reactions))
      ensures TurnsExplained(old(Live(obs)), Turns(old(obs), 0, reactions), reactions)
      ensures AllFlat(reactions) ==> Flat(Script(reactions, |Turns(old(obs), 0, reactions)|))
      ensures AllFlat(reactions) ==>
        Live(obs) == Fold(old(Live(obs)), Script(reactions, |Turns(old(obs), 0, reactions)|))
      decreases reactions, 1
    {
      ghost var before := obs;
      ghost var all := Deliver(before, 0, reactions);
      log := [];
      var i, k := 0, 0;
      while i < |obs|
        invariant Valid() && 0 <= k <= |reactions|
        invariant all.obs == Deliver(obs, i, reactions[k..]).obs
        invariant all.log == log + Deliver(obs, i, reactions[k..]).log
        decreases |reactions| - k, |obs| - i
      {
        if obs[i] != Null {
          ghost var past, call := log, [Called(i, obs[i].ob)];
          log := log + [Called(i, obs[i].ob)];
          if k < |reactions| {
            assert reactions[k..][1..] == reactions[k + 1..];
            ghost var rest := Deliver(React(obs, reactions[k].ops).obs, i + 1, reactions[k + 1..]).log;
            var l := OnEvent(reactions[k].ops);
            log := log + l;
            LogsJoin(past, call, l, rest);
            k := k + 1;
          } else {
            LogsAssociate(past, call, Deliver(obs, i + 1, []).log);
          }
        }
        i := i + 1;
      }
      Shrink();
      NotificationSummary(before, reactions);
      NotificationMeans(before, reactions, Turns(before, 0, reactions));
    }

    /** The body of a callback. */
    method OnEvent(ops: seq<Op>) returns (log: seq<Event>)
      requires Valid()
      modifies this
      ensures Valid() && obs == React(old(obs), ops).obs && log == React(old(obs), ops).log
      ensures AllExplained(old(Live(obs)), ops, log) && Live(obs) == Members(old(Live(obs)), log)
      ensures Flat(ops) ==> Live(obs) == Fold(old(Live(obs)), ops)
      decreases ops, 0
    {
      ReactMeans(obs, ops);
      ReactRefines(obs, ops);
      log := [];
      ghost var before := obs;
      for k := 0 to |ops|
        invariant Valid()
        invariant React(before, ops).obs == React(obs, ops[k..]).obs
        invariant React(before, ops).log == log + React(obs, ops[k..]).log
      {
        assert ops[k..][0] == ops[k] && ops[k..][1..] == ops[k + 1..];
        ghost var rest := React(Perform(obs, ops[k]).obs, ops[k + 1..]).log;
        var l := Do(ops[k]);
        LogsAssociate(log, l, rest);
        log := log + l;
      }
    }

    /** One operation of a callback. */
    method Do(op: Op) returns (log: seq<Event>)
      requires Valid()
      modifies this
      ensures Valid() && obs == Perform(old(obs), op).obs && log == Perform(old(obs), op).log
      ensures Explains(old(Live(obs)), op, log) && Live(obs) == Members(old(Live(obs)), log)
      ensures !op.Notify? ==> Live(obs) == Effect(old(Live(obs)), op)
      decreases op, 0
    {
      PerformMeans(obs, op);
      PerformRefines(obs, op);
      var now := obs;
      match op {
        case Subscribe(who) =>
          var rc := Subscribe(who);
          log := Subscribed(now, who).log;
        case Unsubscribe(who) =>
          var rc := Unsubscribe(who);
          log := Unsubscribed(now, who).log;
        case Clear =>
          Clear();
          log := Cleared(now).log;
        case Notify(reactions) =>
          log := Notify(reactions);
      }
    }
  }
}
