/**
 Model of `call_once` (turbo/base/call_once.h) together with the waiting loop it
 relies on (turbo/base/internal/spinlock_wait.cc) and the futex form of its
 delay and wake calls (turbo/base/internal/spinlock_linux.inc).

 Any number of threads call `call_once` on one flag. Every load, compare-exchange,
 exchange, futex wait and futex wake is one atomic step, and the steps of
 different threads interleave arbitrarily.
 */
module CallOnce {
  import opened Common

  const ONCE_INIT: nat := 0
  const ONCE_RUNNING: nat := 0x65C2937B
  const ONCE_WAITER: nat := 0x05A308D2
  const ONCE_DONE: nat := 221

  /** A row of the table given to `SpinLockWait`. */
  datatype Transition = Transition(from: nat, to: nat, done: bool)

  const TRANSITIONS: seq<Transition> := [
    Transition(ONCE_INIT, ONCE_RUNNING, true),
    Transition(ONCE_RUNNING, ONCE_WAITER, false),
    Transition(ONCE_DONE, ONCE_DONE, true)
  ]

  /** The first row of `table` that starts from `v`, or the table's length. */
  function Lookup(table: seq<Transition>, v: nat): (row: nat)
    ensures row <= |table|
    ensures row < |table| ==> table[row].from == v
    ensures forall i :: 0 <= i < row ==> table[i].from != v
  {
    if table == [] || table[0].from == v then 0 else 1 + Lookup(table[1..], v)
  }

  /** Where a thread stands in its call. */
  datatype Pc =
    | Entry             // call_once: about to load the word
    | Check             // CallOnceImpl: about to check the word in a debug build
    | FastCas           // CallOnceImpl: about to try Init -> Running
    | Load              // SpinLockWait: about to load the word
    | Loaded(v: nat)    // SpinLockWait: has loaded v
    | Parked            // asleep in the futex queue of the word
    | Invoke            // won the word, about to start the function
    | InFn              // inside the function
    | FnDone            // the function has returned; about to exchange in Done
    | Exchanged(v: nat) // exchanged Done for v; about to wake the sleepers, if any
    | Returned
    | Fatal             // the debug check found a bad word

  /** What an observer outside the library can see. */
  datatype Event = Started(t: nat) | Ended(t: nat) | Left(t: nat)

  datatype State = State(word: nat, pcs: seq<Pc>, log: seq<Event>)

  datatype Action =
    | Act(t: nat)      // thread t performs its next atomic step
    | Spurious(t: nat) // the operating system wakes t for no reason

  function Start(n: nat): State {
    State(ONCE_INIT, seq(n, _ => Entry), [])
  }

  predicate CanAct(pc: Pc) {
    pc != Parked && pc != Returned && pc != Fatal
  }

  predicate Enabled(s: State, a: Action) {
    && a.t < |s.pcs|
    && match a
       case Act(t) => CanAct(s.pcs[t])
       case Spurious(t) => s.pcs[t] == Parked
  }

  predicate Known(word: nat) {
    word == ONCE_INIT || word == ONCE_RUNNING || word == ONCE_WAITER || word == ONCE_DONE
  }

  function Go(s: State, t: nat, pc: Pc): State
    requires t < |s.pcs|
  {
    s.(pcs := s.pcs[t := pc])
  }

  function Leave(s: State, t: nat): State
    requires t < |s.pcs|
  {
    Go(s, t, Returned).(log := s.log + [Left(t)])
  }

  /** `SpinLockWait` performed a row with `done` set and returns `v`. */
  function WaitReturns(s: State, t: nat, v: nat): State
    requires t < |s.pcs|
  {
    if v == ONCE_INIT then Go(s, t, Invoke) else Leave(s, t)
  }

  /** The rest of one iteration of `SpinLockWait` after it has loaded `v`. */
  function WaitStep(s: State, t: nat, v: nat): State
    requires t < |s.pcs|
  {
    var row := Lookup(TRANSITIONS, v);
    if row == |TRANSITIONS| then
      // No row: futex wait, which sleeps only if the word still holds v.
      if s.word == v then Go(s, t, Parked) else Go(s, t, Load)
    else
      var tr := TRANSITIONS[row];
      if tr.to == v then
        if tr.done then WaitReturns(s, t, v) else Go(s, t, Load)
      else if s.word == v then
        var moved := s.(word := tr.to);
        if tr.done then WaitReturns(moved, t, v) else Go(moved, t, Load)
      else
        Go(s, t, Load)
  }

  function WakeAll(pcs: seq<Pc>): (woken: seq<Pc>)
    ensures |woken| == |pcs|
    ensures forall i :: 0 <= i < |pcs| ==> woken[i] == if pcs[i] == Parked then Load else pcs[i]
  {
    seq(|pcs|, i requires 0 <= i < |pcs| => if pcs[i] == Parked then Load else pcs[i])
  }

  /** The next atomic step of thread `t`. */
  function Step(s: State, t: nat): State
    requires t < |s.pcs|
    ensures |Step(s, t).pcs| == |s.pcs|
  {
    match s.pcs[t]
    case Entry => if s.word == ONCE_DONE then Leave(s, t) else Go(s, t, Check)
    case Check => Go(s, t, if Known(s.word) then FastCas else Fatal)
    case FastCas =>
      if s.word == ONCE_INIT then Go(s.(word := ONCE_RUNNING), t, Invoke) else Go(s, t, Load)
    case Load => Go(s, t, Loaded(s.word))
    case Loaded(v) => WaitStep(s, t, v)
    case Invoke => Go(s, t, InFn).(log := s.log + [Started(t)])
    case InFn => Go(s, t, FnDone).(log := s.log + [Ended(t)])
    case FnDone => Go(s.(word := ONCE_DONE), t, Exchanged(s.word))
    case Exchanged(v) =>
      Leave(if v == ONCE_WAITER then s.(pcs := WakeAll(s.pcs)) else s, t)
    case Parked => s
    case Returned => s
    case Fatal => s
  }

  function Apply(s: State, a: Action): State
    requires Enabled(s, a)
  {
    match a
    case Act(t) => Step(s, t)
    case Spurious(t) => Go(s, t, Load)
  }

  /** The state after performing `acts` in order, if each is enabled in turn. */
  function Exec(s: State, acts: seq<Action>): (r: Option<State>)
    ensures r.Some? ==> |r.value.pcs| == |s.pcs|
    decreases |acts|
  {
    if acts == [] then Some(s)
    else if Enabled(s, acts[0]) then Exec(Apply(s, acts[0]), acts[1..])
    else None
  }

  // ---- The invariant ----

  /** The thread has won the word and not yet given it up. */
  predicate Owns(pc: Pc) {
    pc == Invoke || pc == InFn || pc == FnDone
  }

  predicate Busy(word: nat) {
    word == ONCE_RUNNING || word == ONCE_WAITER
  }

  /** The log of a flag whose function has finished: one start, its end, then only departures. */
  ghost predicate FinishedLog(log: seq<Event>) {
    && |log| >= 2
    && log[0].Started? && log[1] == Ended(log[0].t)
    && forall i :: 2 <= i < |log| ==> log[i].Left?
  }

  ghost predicate WakePending(s: State) {
    exists r :: 0 <= r < |s.pcs| && s.pcs[r] == Exchanged(ONCE_WAITER)
  }

  ghost predicate HasOwner(s: State) {
    exists r :: 0 <= r < |s.pcs| && Owns(s.pcs[r])
  }

  /** What holds of one thread in every reachable state. */
  predicate ThreadOk(s: State, t: nat)
    requires t < |s.pcs|
  {
    match s.pcs[t]
    case Fatal => false
    case Loaded(v) => Known(v) && (v == ONCE_DONE ==> s.word == ONCE_DONE)
    case Exchanged(v) => Busy(v) && s.word == ONCE_DONE
    case Parked => s.word == ONCE_WAITER || s.word == ONCE_DONE
    case Returned => s.word == ONCE_DONE
    case Invoke => Busy(s.word) && s.log == []
    case InFn => Busy(s.word) && s.log == [Started(t)]
    case FnDone => Busy(s.word) && s.log == [Started(t), Ended(t)]
    case _ => true
  }

  ghost predicate ThreadsOk(s: State) {
    forall t :: 0 <= t < |s.pcs| ==> ThreadOk(s, t)
  }

  /** A busy word has an owner, and there is never more than one. */
  ghost predicate OwnerOk(s: State) {
    && (forall t, u :: 0 <= t < |s.pcs| && 0 <= u < |s.pcs| && Owns(s.pcs[t]) && Owns(s.pcs[u]) ==> t == u)
    && (Busy(s.word) ==> HasOwner(s))
  }

  ghost predicate LogOk(s: State) {
    && (s.word == ONCE_INIT ==> s.log == [])
    && (s.word == ONCE_DONE ==> FinishedLog(s.log))
  }

  /** No lost wake-up: a sleeper on a finished flag is about to be woken. */
  ghost predicate WakeOk(s: State) {
    s.word == ONCE_DONE ==> forall t :: 0 <= t < |s.pcs| && s.pcs[t] == Parked ==> WakePending(s)
  }

  ghost predicate Inv(s: State) {
    Known(s.word) && ThreadsOk(s) && OwnerOk(s) && LogOk(s) && WakeOk(s) && LeftMatches(s)
  }

  /** Each thread that has returned is logged once, and no other is. */
  ghost predicate LeftMatches(s: State) {
    && (forall t :: 0 <= t < |s.pcs| && s.pcs[t] == Returned ==> Left(t) in s.log)
    && (forall i :: 0 <= i < |s.log| && s.log[i].Left? ==> s.log[i].t < |s.pcs| && s.pcs[s.log[i].t] == Returned)
    && (forall i, j :: 0 <= i < j < |s.log| && s.log[i].Left? ==> s.log[i] != s.log[j])
  }

  lemma TableRows()
    ensures Lookup(TRANSITIONS, ONCE_INIT) == 0
    ensures Lookup(TRANSITIONS, ONCE_RUNNING) == 1
    ensures Lookup(TRANSITIONS, ONCE_DONE) == 2
    ensures Lookup(TRANSITIONS, ONCE_WAITER) == 3
  {
    assert TRANSITIONS[0].from == ONCE_INIT;
    assert TRANSITIONS[1].from == ONCE_RUNNING;
    assert TRANSITIONS[2].from == ONCE_DONE;
  }

  lemma MoveThreads(s: State, t: nat, pc: Pc)
    requires ThreadsOk(s) && Known(s.word) && t < |s.pcs|
    requires || pc == Check || pc == FastCas || pc == Load || pc == Loaded(s.word)
             || (pc == Parked && s.word == ONCE_WAITER)
    ensures ThreadsOk(Go(s, t, pc))
  {
    forall u | 0 <= u < |s.pcs|
      ensures ThreadOk(Go(s, t, pc), u)
    {
      assert ThreadOk(s, u);
    }
  }

  lemma MoveOwner(s: State, t: nat, pc: Pc)
    requires OwnerOk(s) && t < |s.pcs| && !Owns(s.pcs[t]) && !Owns(pc)
    ensures OwnerOk(Go(s, t, pc))
  {
    var s' := Go(s, t, pc);
    if HasOwner(s) {
      var r :| 0 <= r < |s.pcs| && Owns(s.pcs[r]);
      assert Owns(s'.pcs[r]);
    }
  }

  lemma MoveWake(s: State, t: nat, pc: Pc)
    requires WakeOk(s) && t < |s.pcs| && !s.pcs[t].Exchanged? && (pc == Parked ==> s.word != ONCE_DONE)
    ensures WakeOk(Go(s, t, pc))
  {
    var s' := Go(s, t, pc);
    if WakePending(s) {
      var r :| 0 <= r < |s.pcs| && s.pcs[r] == Exchanged(ONCE_WAITER);
      assert s'.pcs[r] == Exchanged(ONCE_WAITER);
    }
  }

  lemma MoveLeft(s: State, t: nat, pc: Pc)
    requires LeftMatches(s) && t < |s.pcs| && s.pcs[t] != Returned && pc != Returned
    ensures LeftMatches(Go(s, t, pc))
  {
  }

  /** A thread moves without touching word or log, and without winning, sleeping or waking. */
  lemma MoveKeepsInv(s: State, t: nat, pc: Pc)
    requires Inv(s) && t < |s.pcs|
    requires !Owns(s.pcs[t]) && !s.pcs[t].Exchanged? && s.pcs[t] != Returned
    requires || pc == Check || pc == FastCas || pc == Load || pc == Loaded(s.word)
             || (pc == Parked && s.word == ONCE_WAITER)
    ensures Inv(Go(s, t, pc))
  {
    MoveThreads(s, t, pc);
    MoveOwner(s, t, pc);
    MoveWake(s, t, pc);
    MoveLeft(s, t, pc);
  }

  /** A thread wins the word, or the word moves from Running to Waiter. */
  lemma WordMoveKeepsInv(s: State, t: nat, word: nat, pc: Pc)
    requires Inv(s) && t < |s.pcs|
    requires !Owns(s.pcs[t]) && !s.pcs[t].Exchanged? && s.pcs[t] != Returned
    requires || (s.word == ONCE_INIT && word == ONCE_RUNNING && pc == Invoke)
             || (s.word == ONCE_RUNNING && word == ONCE_WAITER && pc == Load)
    ensures Inv(Go(s.(word := word), t, pc))
  {
    var s' := Go(s.(word := word), t, pc);
    forall u | 0 <= u < |s.pcs|
      ensures ThreadOk(s', u)
      ensures s.word == ONCE_INIT ==> !Owns(s.pcs[u])
    {
      assert ThreadOk(s, u);
    }
    if HasOwner(s) {
      var r :| 0 <= r < |s.pcs| && Owns(s.pcs[r]);
      assert Owns(s'.pcs[r]);
    } else {
      assert Owns(s'.pcs[t]);
    }
  }

  /** The owner advances to the start or the end of the function. */
  lemma OwnerKeepsInv(s: State, t: nat)
    requires Inv(s) && t < |s.pcs| && (s.pcs[t] == Invoke || s.pcs[t] == InFn)
    ensures Inv(Step(s, t))
  {
    var s' := Step(s, t);
    assert ThreadOk(s, t) && Owns(s'.pcs[t]);
    forall u | 0 <= u < |s.pcs|
      ensures ThreadOk(s', u)
    {
      assert ThreadOk(s, u);
    }
  }

  /** The owner publishes Done. */
  lemma ExchangeKeepsInv(s: State, t: nat)
    requires Inv(s) && t < |s.pcs| && s.pcs[t] == FnDone
    ensures Inv(Step(s, t))
  {
    var s' := Step(s, t);
    assert ThreadOk(s, t);
    forall u | 0 <= u < |s.pcs|
      ensures ThreadOk(s', u)
      ensures s'.pcs[u] == Parked ==> WakePending(s')
    {
      assert ThreadOk(s, u);
      assert s'.pcs[t] == Exchanged(s.word);
    }
  }

  lemma LeaveThreads(s: State, t: nat)
    requires ThreadsOk(s) && t < |s.pcs| && s.word == ONCE_DONE
    ensures ThreadsOk(Leave(s, t)) && OwnerOk(Leave(s, t))
  {
    forall u | 0 <= u < |s.pcs|
      ensures ThreadOk(Leave(s, t), u) && !Owns(Leave(s, t).pcs[u])
    {
      assert ThreadOk(s, u);
    }
  }

  lemma LeaveWake(s: State, t: nat)
    requires WakeOk(s) && t < |s.pcs| && s.word == ONCE_DONE
    requires s.pcs[t] == Exchanged(ONCE_WAITER) ==> forall u :: 0 <= u < |s.pcs| ==> s.pcs[u] != Parked
    ensures WakeOk(Leave(s, t))
  {
    var s' := Leave(s, t);
    forall u | 0 <= u < |s.pcs| && s'.pcs[u] == Parked
      ensures WakePending(s')
    {
      assert s.pcs[u] == Parked;
      var r :| 0 <= r < |s.pcs| && s.pcs[r] == Exchanged(ONCE_WAITER);
      assert s'.pcs[r] == Exchanged(ONCE_WAITER);
    }
  }

  lemma LeaveLeft(s: State, t: nat)
    requires LeftMatches(s) && t < |s.pcs| && s.pcs[t] != Returned
    ensures LeftMatches(Leave(s, t))
  {
    var s' := Leave(s, t);
    forall u | 0 <= u < |s.pcs| && s'.pcs[u] == Returned
      ensures Left(u) in s'.log
    {
      assert s'.log[|s.log|] == Left(t);
      if u != t {
        var i :| 0 <= i < |s.log| && s.log[i] == Left(u);
        assert s'.log[i] == Left(u);
      }
    }
  }

  /** A thread returns to its caller from a finished flag, other than past a pending wake. */
  lemma LeaveKeepsInv(s: State, t: nat)
    requires Inv(s) && t < |s.pcs| && s.word == ONCE_DONE && s.pcs[t] != Returned
    requires s.pcs[t] == Exchanged(ONCE_WAITER) ==> forall u :: 0 <= u < |s.pcs| ==> s.pcs[u] != Parked
    ensures Inv(Leave(s, t))
  {
    LeaveThreads(s, t);
    LeaveWake(s, t);
    LeaveLeft(s, t);
  }

  /** The wake-up call empties the futex queue. */
  lemma WakeAllKeepsInv(s: State, t: nat)
    requires Inv(s) && t < |s.pcs| && s.word == ONCE_DONE && s.pcs[t] == Exchanged(ONCE_WAITER)
    ensures Inv(s.(pcs := WakeAll(s.pcs)))
  {
    var s' := s.(pcs := WakeAll(s.pcs));
    forall u | 0 <= u < |s.pcs|
      ensures ThreadOk(s', u)
    {
      assert ThreadOk(s, u);
    }
  }

  /** Every step of every thread keeps the invariant. */
  lemma StepKeepsInv(s: State, t: nat)
    requires Inv(s) && t < |s.pcs| && CanAct(s.pcs[t])
    ensures Inv(Step(s, t))
  {
    assert ThreadOk(s, t);
    match s.pcs[t]
    case Entry =>
      if s.word == ONCE_DONE { LeaveKeepsInv(s, t); } else { MoveKeepsInv(s, t, Check); }
    case Check => MoveKeepsInv(s, t, FastCas);
    case FastCas =>
      if s.word == ONCE_INIT { WordMoveKeepsInv(s, t, ONCE_RUNNING, Invoke); } else { MoveKeepsInv(s, t, Load); }
    case Load => MoveKeepsInv(s, t, Loaded(s.word));
    case Loaded(v) =>
      TableRows();
      if v == ONCE_DONE { LeaveKeepsInv(s, t); }
      else if s.word != v { MoveKeepsInv(s, t, Load); }
      else if v == ONCE_WAITER { MoveKeepsInv(s, t, Parked); }
      else if v == ONCE_INIT { WordMoveKeepsInv(s, t, ONCE_RUNNING, Invoke); }
      else { WordMoveKeepsInv(s, t, ONCE_WAITER, Load); }
    case Invoke => OwnerKeepsInv(s, t);
    case InFn => OwnerKeepsInv(s, t);
    case FnDone => ExchangeKeepsInv(s, t);
    case Exchanged(v) =>
      if v == ONCE_WAITER {
        WakeAllKeepsInv(s, t);
        LeaveKeepsInv(s.(pcs := WakeAll(s.pcs)), t);
      } else {
        LeaveKeepsInv(s, t);
      }
  }

  lemma {:induction false} RunKeepsInv(s: State, acts: seq<Action>)
    requires Inv(s)
    ensures Exec(s, acts).Some? ==> Inv(Exec(s, acts).value)
    decreases |acts|
  {
    if acts != [] && Enabled(s, acts[0]) {
      match acts[0] {
        case Act(t) => StepKeepsInv(s, t);
        case Spurious(t) => MoveKeepsInv(s, t, Load);
      }
      RunKeepsInv(Apply(s, acts[0]), acts[1..]);
    }
  }

  // ---- Safety ----

  /**
   What callers are promised, read off the log alone: the function starts at most
   once, it ends only after it started, and nobody leaves before it has ended.
   */
  ghost predicate OnceOnly(log: seq<Event>) {
    && (forall i, j :: 0 <= i < |log| && 0 <= j < |log| && log[i].Started? && log[j].Started? ==> i == j)
    && (forall i :: 0 <= i < |log| && log[i].Ended? ==> Started(log[i].t) in log[..i])
    && (forall i :: 0 <= i < |log| && log[i].Left? ==> exists t :: Ended(t) in log[..i])
    && (forall i, j :: 0 <= i < j < |log| && log[i].Left? ==> log[i] != log[j])
  }

  /** In every interleaving of any number of callers, the function runs at most once and before anyone returns. */
  lemma RunsOnce(n: nat, acts: seq<Action>)
    requires Exec(Start(n), acts).Some?
    ensures OnceOnly(Exec(Start(n), acts).value.log)
    ensures forall t :: 0 <= t < n ==> Exec(Start(n), acts).value.pcs[t] != Fatal
  {
    RunKeepsInv(Start(n), acts);
    var s := Exec(Start(n), acts).value;
    InvGivesOnceOnly(s);
    forall t | 0 <= t < n
      ensures s.pcs[t] != Fatal
    {
      assert ThreadOk(s, t);
    }
  }

  lemma InvGivesOnceOnly(s: State)
    requires Inv(s)
    ensures OnceOnly(s.log)
  {
    var log := s.log;
    if s.word == ONCE_DONE {
      forall i | 2 <= i < |log|
        ensures exists t :: Ended(t) in log[..i]
      {
        assert log[..i][1] == Ended(log[0].t);
      }
      assert log[..1][0] == log[0];
    } else if Busy(s.word) {
      var r :| 0 <= r < |s.pcs| && Owns(s.pcs[r]);
      assert ThreadOk(s, r);
      if s.pcs[r] == FnDone {
        assert log[..1][0] == log[0];
      }
    }
  }

  /** No lost wake-up: while a thread sleeps, the function is unfinished or a wake-up call is on its way. */
  lemma NoLostWakeUp(n: nat, acts: seq<Action>, t: nat)
    requires Exec(Start(n), acts).Some? && t < n
    requires Exec(Start(n), acts).value.pcs[t] == Parked
    ensures var s := Exec(Start(n), acts).value;
            (s.word == ONCE_WAITER && HasOwner(s)) || (s.word == ONCE_DONE && WakePending(s))
  {
    RunKeepsInv(Start(n), acts);
    assert ThreadOk(Exec(Start(n), acts).value, t);
  }

  // ---- Progress ----

  /** A thread that cannot act, among others that cannot either, has returned. */
  lemma StuckThreadReturned(s: State, t: nat)
    requires Inv(s) && t < |s.pcs|
    requires forall u :: 0 <= u < |s.pcs| ==> !CanAct(s.pcs[u])
    ensures s.pcs[t] == Returned
  {
    assert ThreadOk(s, t);
  }

  /**
   A run that cannot be continued has finished: every caller has returned, the word
   is Done, and the log is one start, its end, and one departure per caller.
   */
  lemma StuckMeansFinished(n: nat, acts: seq<Action>)
    requires n > 0 && Exec(Start(n), acts).Some?
    requires forall t :: 0 <= t < n ==> !Enabled(Exec(Start(n), acts).value, Act(t))
    ensures var s := Exec(Start(n), acts).value;
            && s.word == ONCE_DONE
            && (forall t :: 0 <= t < n ==> s.pcs[t] == Returned && Left(t) in s.log)
            && FinishedLog(s.log)
  {
    RunKeepsInv(Start(n), acts);
    var s := Exec(Start(n), acts).value;
    forall t | 0 <= t < n
      ensures !CanAct(s.pcs[t])
    {
      assert !Enabled(s, Act(t));
    }
    forall t | 0 <= t < n
      ensures s.pcs[t] == Returned
    {
      StuckThreadReturned(s, t);
    }
    assert ThreadOk(s, 0);
  }

  /** How many times the word can still change. */
  function Phase(word: nat): nat {
    if word == ONCE_INIT then 3 else if word == ONCE_RUNNING then 2 else if word == ONCE_WAITER then 1 else 0
  }

  /** An upper bound on the steps a thread takes before the word changes again. */
  function Distance(pc: Pc, word: nat): nat {
    match pc
    case Entry => 14
    case Check => 13
    case FastCas => 12
    case Load => 10
    case Loaded(v) => if v == word then 9 else 11
    case Parked => if word == ONCE_DONE then 11 else 8
    case Invoke => 5
    case InFn => 4
    case FnDone => 3
    case Exchanged(_) => 2
    case Returned => 0
    case Fatal => 0
  }

  function Rank(pc: Pc, word: nat): nat {
    8 * Phase(word) + Distance(pc, word)
  }

  function Work(pcs: seq<Pc>, word: nat): nat {
    if pcs == [] then 0 else Rank(pcs[0], word) + Work(pcs[1..], word)
  }

  /** If no thread's rank grows and one's shrinks, so does the total. */
  lemma {:induction false} WorkShrinks(pcs: seq<Pc>, word: nat, pcs': seq<Pc>, word': nat, t: nat)
    requires |pcs| == |pcs'| && t < |pcs|
    requires forall u :: 0 <= u < |pcs| ==> Rank(pcs'[u], word') <= Rank(pcs[u], word)
    requires Rank(pcs'[t], word') < Rank(pcs[t], word)
    ensures Work(pcs', word') < Work(pcs, word)
  {
    if t == 0 {
      WorkMonotone(pcs[1..], word, pcs'[1..], word');
    } else {
      WorkShrinks(pcs[1..], word, pcs'[1..], word', t - 1);
    }
  }

  lemma {:induction false} WorkMonotone(pcs: seq<Pc>, word: nat, pcs': seq<Pc>, word': nat)
    requires |pcs| == |pcs'|
    requires forall u :: 0 <= u < |pcs| ==> Rank(pcs'[u], word') <= Rank(pcs[u], word)
    ensures Work(pcs', word') <= Work(pcs, word)
  {
    if pcs != [] {
      WorkMonotone(pcs[1..], word, pcs'[1..], word');
    }
  }

  /** A step brings its own thread nearer to the end, and no thread further from it. */
  lemma StepShrinksRank(s: State, t: nat, u: nat)
    requires Known(s.word) && t < |s.pcs| && u < |s.pcs| && ThreadOk(s, t) && ThreadOk(s, u) && CanAct(s.pcs[t])
    ensures var s' := Step(s, t);
      && Rank(s'.pcs[u], s'.word) <= Rank(s.pcs[u], s.word)
      && (u == t ==> Rank(s'.pcs[u], s'.word) < Rank(s.pcs[u], s.word))
  {
    TableRows();
  }

  lemma StepShrinksWork(s: State, t: nat)
    requires Inv(s) && t < |s.pcs| && CanAct(s.pcs[t])
    ensures Work(Step(s, t).pcs, Step(s, t).word) < Work(s.pcs, s.word)
  {
    var s' := Step(s, t);
    forall u | 0 <= u < |s.pcs|
      ensures Rank(s'.pcs[u], s'.word) <= Rank(s.pcs[u], s.word)
      ensures u == t ==> Rank(s'.pcs[u], s'.word) < Rank(s.pcs[u], s.word)
    {
      assert ThreadOk(s, t) && ThreadOk(s, u);
      StepShrinksRank(s, t, u);
    }
    WorkShrinks(s.pcs, s.word, s'.pcs, s'.word, t);
  }

  /** A spurious wake-up costs at most two steps. */
  lemma {:induction false} WakeCost(pcs: seq<Pc>, word: nat, t: nat)
    requires t < |pcs| && pcs[t] == Parked
    ensures Work(pcs[t := Load], word) <= Work(pcs, word) + 2
  {
    if t == 0 {
      assert pcs[t := Load][1..] == pcs[1..];
    } else {
      assert pcs[t := Load][1..] == pcs[1..][t - 1 := Load];
      WakeCost(pcs[1..], word, t - 1);
    }
  }

  /** The number of spurious wake-ups in a run. */
  function SpuriousCount(acts: seq<Action>): nat {
    if acts == [] then 0 else (if acts[0].Spurious? then 1 else 0) + SpuriousCount(acts[1..])
  }

  lemma {:induction false} RunLength(s: State, acts: seq<Action>)
    requires Inv(s) && Exec(s, acts).Some?
    ensures |acts| <= Work(s.pcs, s.word) + 3 * SpuriousCount(acts)
    decreases |acts|
  {
    if acts != [] {
      match acts[0] {
        case Act(t) =>
          StepKeepsInv(s, t);
          StepShrinksWork(s, t);
        case Spurious(t) =>
          MoveKeepsInv(s, t, Load);
          WakeCost(s.pcs, s.word, t);
      }
      RunLength(Apply(s, acts[0]), acts[1..]);
    }
  }

  lemma {:induction false} InitialWork(pcs: seq<Pc>)
    requires forall t :: 0 <= t < |pcs| ==> pcs[t] == Entry
    ensures Work(pcs, ONCE_INIT) == 38 * |pcs|
  {
    if pcs != [] {
      InitialWork(pcs[1..]);
    }
  }

  /**
   No caller waits forever: n callers together take at most 38 * n steps, plus
   three for each spurious wake-up. With `StuckMeansFinished`, every run in which
   the function returns can only end with all callers returned.
   */
  lemma {:induction false} Terminates(n: nat, acts: seq<Action>)
    requires Exec(Start(n), acts).Some?
    ensures |acts| <= 38 * n + 3 * SpuriousCount(acts)
  {
    InitialWork(Start(n).pcs);
    RunLength(Start(n), acts);
  }

  // ---- Calls that nobody disturbs ----

  /** The state after at most `n` steps of thread `t` alone. */
  function Alone(s: State, t: nat, n: nat): (r: State)
    requires t < |s.pcs|
    ensures |r.pcs| == |s.pcs|
    decreases n
  {
    if n == 0 || !CanAct(s.pcs[t]) then s else Alone(Step(s, t), t, n - 1)
  }

  /** One step on the way of thread `t` through its call. */
  lemma OnTheWay(pcs: seq<Pc>, t: nat, word: nat, pc: Pc, log: seq<Event>,
                 word': nat, pc': Pc, log': seq<Event>, n: nat)
    requires t < |pcs| && CanAct(pc)
    requires Step(State(word, pcs[t := pc], log), t) == State(word', pcs[t := pc][t := pc'], log')
    ensures Alone(State(word, pcs[t := pc], log), t, n + 1) == Alone(State(word', pcs[t := pc'], log'), t, n)
  {
    assert pcs[t := pc][t := pc'] == pcs[t := pc'];
  }

  /** A caller that finds the flag finished leaves at once. */
  lemma FinishedFlagIsLeft(pcs: seq<Pc>, t: nat, log: seq<Event>)
    requires t < |pcs|
    ensures Alone(State(ONCE_DONE, pcs[t := Entry], log), t, 1)
         == State(ONCE_DONE, pcs[t := Returned], log + [Left(t)])
  {
    OnTheWay(pcs, t, ONCE_DONE, Entry, log, ONCE_DONE, Returned, log + [Left(t)], 0);
  }

  /** The first caller never waits: it wins the flag, runs the function, publishes Done and leaves. */
  lemma FirstCallerNeverWaits(pcs: seq<Pc>, t: nat, log: seq<Event>)
    requires t < |pcs|
    ensures Alone(State(ONCE_INIT, pcs[t := Entry], log), t, 7)
         == State(ONCE_DONE, pcs[t := Returned], log + [Started(t)] + [Ended(t)] + [Left(t)])
  {
    OnTheWay(pcs, t, ONCE_INIT, Entry, log, ONCE_INIT, Check, log, 6);
    OnTheWay(pcs, t, ONCE_INIT, Check, log, ONCE_INIT, FastCas, log, 5);
    OnTheWay(pcs, t, ONCE_INIT, FastCas, log, ONCE_RUNNING, Invoke, log, 4);
    WinnerFinishes(pcs, t, log);
  }

  /** Whoever has won, with nobody waiting, finishes in four steps. */
  lemma WinnerFinishes(pcs: seq<Pc>, t: nat, log: seq<Event>)
    requires t < |pcs|
    ensures Alone(State(ONCE_RUNNING, pcs[t := Invoke], log), t, 4)
         == State(ONCE_DONE, pcs[t := Returned], log + [Started(t)] + [Ended(t)] + [Left(t)])
  {
    var log1 := log + [Started(t)];
    var log2 := log1 + [Ended(t)];
    OnTheWay(pcs, t, ONCE_RUNNING, Invoke, log, ONCE_RUNNING, InFn, log1, 3);
    OnTheWay(pcs, t, ONCE_RUNNING, InFn, log1, ONCE_RUNNING, FnDone, log2, 2);
    OnTheWay(pcs, t, ONCE_RUNNING, FnDone, log2, ONCE_DONE, Exchanged(ONCE_RUNNING), log2, 1);
    OnTheWay(pcs, t, ONCE_DONE, Exchanged(ONCE_RUNNING), log2, ONCE_DONE, Returned, log2 + [Left(t)], 0);
  }

  /** A sleeper woken for no reason goes back to sleep on a busy flag, and leaves a finished one. */
  lemma SpuriousWakeIsHarmless(s: State, t: nat)
    requires Enabled(s, Spurious(t)) && (s.word == ONCE_WAITER || s.word == ONCE_DONE)
    ensures Alone(Apply(s, Spurious(t)), t, 2) ==
      if s.word == ONCE_WAITER then s else State(ONCE_DONE, s.pcs[t := Returned], s.log + [Left(t)])
  {
    TableRows();
    OnTheWay(s.pcs, t, s.word, Load, s.log, s.word, Loaded(s.word), s.log, 1);
    if s.word == ONCE_WAITER {
      OnTheWay(s.pcs, t, s.word, Loaded(s.word), s.log, s.word, Parked, s.log, 0);
      assert s.pcs[t := Parked] == s.pcs;
    } else {
      OnTheWay(s.pcs, t, s.word, Loaded(s.word), s.log, s.word, Returned, s.log + [Left(t)], 0);
    }
  }

  /** The check in a debug build stops a caller if and only if the word is none of the four. */
  lemma BadWordIsFatal(s: State, t: nat)
    requires t < |s.pcs| && s.pcs[t] == Entry
    ensures Alone(s, t, 2).pcs[t] == Fatal <==> s.word !in {ONCE_INIT, ONCE_RUNNING, ONCE_WAITER, ONCE_DONE}
  {
    assert s.pcs[t := Entry] == s.pcs;
    if s.word == ONCE_DONE {
      OnTheWay(s.pcs, t, s.word, Entry, s.log, s.word, Returned, s.log + [Left(t)], 1);
    } else {
      OnTheWay(s.pcs, t, s.word, Entry, s.log, s.word, Check, s.log, 1);
      OnTheWay(s.pcs, t, s.word, Check, s.log, s.word, if Known(s.word) then FastCas else Fatal, s.log, 0);
    }
  }
}
