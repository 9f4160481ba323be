/** util/safe_handler.h: a lock per key, built from a set of locked keys and two mutexes.

    `find`, `insert` and `erase` each run under `_smutex`; `tryLock` tests the set once without and once
    with `_mutex` before inserting. Any number of threads take steps in any order. */
module SafeHandler {
  import opened Words

  type Thread = int
  type Key = int

  /** The four critical sections of `_smutex`. */
  datatype Op = FindFirst | FindAgain | Insert | Erase

  /** Where a thread is: outside, at or in a `_smutex` section, about to lock `_mutex`, or about to unlock
      it after inserting (`Unlock`) or after the second test failed (`Retry`). */
  datatype Pc =
    | Outside
    | At(op: Op, key: Key)
    | In(op: Op, key: Key)
    | WantMutex(key: Key)
    | Unlock(key: Key)
    | Retry(key: Key)

  /** `held` pairs a thread with the keys it has inserted and not yet erased. */
  datatype State = State(
    locked: set<Key>, mutex: Option<Thread>, smutex: Option<Thread>,
    pcs: map<Thread, Pc>, held: set<(Thread, Key)>)

  datatype Action = CallTryLock(key: Key) | CallRelease(key: Key) | LockSmutex | Section | LockMutex | UnlockMutex

  function PcOf(s: State, t: Thread): Pc { if t in s.pcs then s.pcs[t] else Outside }

  predicate Enabled(s: State, t: Thread, a: Action) {
    match a
    case CallTryLock(_) => PcOf(s, t).Outside?
    case CallRelease(_) => PcOf(s, t).Outside?
    case LockSmutex => PcOf(s, t).At? && s.smutex == None
    case Section => PcOf(s, t).In?
    case LockMutex => PcOf(s, t).WantMutex? && s.mutex == None
    case UnlockMutex => PcOf(s, t).Unlock? || PcOf(s, t).Retry?
  }

  function Goto(s: State, t: Thread, pc: Pc): State { s.(pcs := s.pcs[t := pc]) }

  /** The body of a `_smutex` section, which ends by unlocking `_smutex`. */
  function AfterSection(s: State, t: Thread, op: Op, key: Key): State {
    var u := s.(smutex := None);
    match op
    case FindFirst => Goto(u, t, if key in s.locked then At(FindFirst, key) else WantMutex(key))
    case FindAgain => Goto(u, t, if key in s.locked then Retry(key) else At(Insert, key))
    case Insert => Goto(u.(locked := s.locked + {key}, held := s.held + {(t, key)}), t, Unlock(key))
    case Erase => Goto(u.(locked := s.locked - {key}, held := s.held - {(t, key)}), t, Outside)
  }

  function After(s: State, t: Thread, a: Action): State
    requires Enabled(s, t, a)
  {
    match a
    case CallTryLock(key) => Goto(s, t, At(FindFirst, key))
    case CallRelease(key) => Goto(s, t, At(Erase, key))
    case LockSmutex => Goto(s.(smutex := Some(t)), t, In(PcOf(s, t).op, PcOf(s, t).key))
    case Section => AfterSection(s, t, PcOf(s, t).op, PcOf(s, t).key)
    case LockMutex => Goto(s.(mutex := Some(t)), t, At(FindAgain, PcOf(s, t).key))
    case UnlockMutex =>
      Goto(s.(mutex := None), t, if PcOf(s, t).Unlock? then Outside else At(FindFirst, PcOf(s, t).key))
  }

  predicate Initial(s: State) { s == State({}, None, None, map[], {}) }

  datatype Step = Step(thread: Thread, action: Action)

  /** `ss` are the states visited by `steps`. */
  ghost predicate Run(ss: seq<State>, steps: seq<Step>) {
    && |ss| == |steps| + 1 && Initial(ss[0])
    && forall i :: 0 <= i < |steps| ==>
         && Enabled(ss[i], steps[i].thread, steps[i].action)
         && ss[i + 1] == After(ss[i], steps[i].thread, steps[i].action)
  }

  /** The step erases a key that another thread holds. */
  ghost predicate ErasesForeign(s: State, t: Thread, a: Action) {
    a.Section? && PcOf(s, t).In? && PcOf(s, t).op.Erase? && exists u :: u != t && (u, PcOf(s, t).key) in s.held
  }

  ghost predicate NoForeignErase(ss: seq<State>, steps: seq<Step>)
    requires |ss| == |steps| + 1
  {
    forall i :: 0 <= i < |steps| ==> !ErasesForeign(ss[i], steps[i].thread, steps[i].action)
  }

  /** A client rule that is enough: a thread releases only a key it holds. */
  ghost predicate OnlyHoldersRelease(ss: seq<State>, steps: seq<Step>)
    requires |ss| == |steps| + 1
  {
    forall i :: 0 <= i < |steps| && steps[i].action.CallRelease? ==>
      (steps[i].thread, steps[i].action.key) in ss[i].held
  }

  // ----- Invariants -----

  /** Program points inside the `_mutex` section. */
  predicate OwnsMutex(pc: Pc) {
    pc.Unlock? || pc.Retry? || ((pc.At? || pc.In?) && (pc.op.FindAgain? || pc.op.Insert?))
  }

  /** Each mutex is owned by exactly the thread whose program point says so. */
  ghost predicate MutexesOk(s: State) {
    && (forall t :: OwnsMutex(PcOf(s, t)) <==> s.mutex == Some(t))
    && (forall t :: PcOf(s, t).In? <==> s.smutex == Some(t))
  }

  ghost predicate Exclusive(s: State) {
    forall t, u, k :: (t, k) in s.held && (u, k) in s.held ==> t == u
  }

  ghost predicate LockedIffHeld(s: State) {
    forall k :: k in s.locked <==> exists t :: (t, k) in s.held
  }

  /** A thread about to insert knows the key is free. */
  ghost predicate Prepared(s: State) {
    forall t :: var pc := PcOf(s, t); (pc.At? || pc.In?) && pc.op.Insert? ==> pc.key !in s.locked
  }

  /** A thread about to erase holds the key. */
  ghost predicate HoldersErase(s: State) {
    forall t :: var pc := PcOf(s, t); (pc.At? || pc.In?) && pc.op.Erase? ==> (t, pc.key) in s.held
  }

  lemma MutexesKept(s: State, t: Thread, a: Action)
    requires MutexesOk(s) && Enabled(s, t, a)
    ensures MutexesOk(After(s, t, a))
  {
    var n := After(s, t, a);
    assert forall u :: u != t ==> PcOf(n, u) == PcOf(s, u);
    assert OwnsMutex(PcOf(s, t)) <==> s.mutex == Some(t);
    assert PcOf(s, t).In? <==> s.smutex == Some(t);
  }

  /** A step keeps the set equal to the held keys exactly when it does not erase a key another thread holds. */
  lemma SetKeptIff(s: State, t: Thread, a: Action)
    requires LockedIffHeld(s) && Enabled(s, t, a)
    ensures LockedIffHeld(After(s, t, a)) <==> !ErasesForeign(s, t, a)
  {
    var n := After(s, t, a);
    if a.Section? && (PcOf(s, t).op.Insert? || PcOf(s, t).op.Erase?) {
      var key := PcOf(s, t).key;
      assert forall u, k :: k != key ==> ((u, k) in n.held <==> (u, k) in s.held);
      assert forall k :: k != key ==> (k in n.locked <==> k in s.locked);
      assert forall u :: u != t ==> ((u, key) in n.held <==> (u, key) in s.held);
      assert (t, key) in n.held <==> PcOf(s, t).op.Insert?;
      HeldSame(s, n, key);
    }
  }

  lemma HeldSame(s: State, n: State, key: Key)
    requires LockedIffHeld(s)
    requires forall u, k :: k != key ==> ((u, k) in n.held <==> (u, k) in s.held)
    requires forall k :: k != key ==> (k in n.locked <==> k in s.locked)
    ensures LockedIffHeld(n) <==> (key in n.locked <==> exists u :: (u, key) in n.held)
  {
    forall k | k != key
      ensures k in n.locked <==> exists u :: (u, k) in n.held
    {
      if u :| (u, k) in s.held { assert (u, k) in n.held; }
      if u :| (u, k) in n.held { assert (u, k) in s.held; }
    }
  }

  lemma HoldersKept(s: State, t: Thread, a: Action)
    requires MutexesOk(s) && Exclusive(s) && LockedIffHeld(s) && Prepared(s) && Enabled(s, t, a)
    ensures Exclusive(After(s, t, a)) && Prepared(After(s, t, a))
  {
    var n := After(s, t, a);
    assert forall u :: u != t ==> PcOf(n, u) == PcOf(s, u);
    if a.Section? && PcOf(s, t).op.Insert? {
      assert forall u :: (u, PcOf(s, t).key) !in s.held;
      assert forall u :: u != t ==> !OwnsMutex(PcOf(s, u));
    }
  }

  /** In every run in which no thread erases a key that another one holds, no two threads hold the same key, and a key
      is in the set exactly when some thread holds it. */
  lemma {:induction false} MutualExclusion(ss: seq<State>, steps: seq<Step>, n: nat)
    requires Run(ss, steps) && NoForeignErase(ss, steps) && n <= |steps|
    ensures MutexesOk(ss[n]) && Exclusive(ss[n]) && LockedIffHeld(ss[n]) && Prepared(ss[n])
  {
    if n > 0 {
      MutualExclusion(ss, steps, n - 1);
      hide MutexesOk, Exclusive, LockedIffHeld, Prepared, ErasesForeign;
      var st := steps[n - 1];
      assert ss[n - 1 + 1] == After(ss[n - 1], st.thread, st.action);
      MutexesKept(ss[n - 1], st.thread, st.action);
      HoldersKept(ss[n - 1], st.thread, st.action);
      SetKeptIff(ss[n - 1], st.thread, st.action);
    }
  }

  /** In every run the set equals the held keys throughout if and only if no thread erases a key another one holds. */
  lemma SetIsHeldIff(ss: seq<State>, steps: seq<Step>)
    requires Run(ss, steps)
    ensures (forall n :: 0 <= n < |ss| ==> LockedIffHeld(ss[n])) <==> NoForeignErase(ss, steps)
  {
    hide MutexesOk, Exclusive, LockedIffHeld, Prepared, ErasesForeign;
    if NoForeignErase(ss, steps) {
      forall n | 0 <= n < |ss|
        ensures LockedIffHeld(ss[n])
      {
        MutualExclusion(ss, steps, n);
      }
    }
    if forall n :: 0 <= n < |ss| ==> LockedIffHeld(ss[n]) {
      forall i | 0 <= i < |steps|
        ensures !ErasesForeign(ss[i], steps[i].thread, steps[i].action)
      {
        SetKeptIff(ss[i], steps[i].thread, steps[i].action);
        assert ss[i + 1] == After(ss[i], steps[i].thread, steps[i].action);
      }
    }
  }

  lemma HoldersEraseKept(s: State, t: Thread, a: Action)
    requires Exclusive(s) && HoldersErase(s) && Enabled(s, t, a) && (a.CallRelease? ==> (t, a.key) in s.held)
    ensures HoldersErase(After(s, t, a)) && !ErasesForeign(s, t, a)
  {
    var n := After(s, t, a);
    assert forall u :: u != t ==> PcOf(n, u) == PcOf(s, u);
    if a.Section? && PcOf(s, t).op.Erase? {
      assert (t, PcOf(s, t).key) in s.held;
      assert forall u :: (u, PcOf(s, t).key) in s.held ==> u == t;
    }
  }

  /** Where only holders release, no thread erases a key that another one holds. */
  lemma {:induction false} HoldersRule(ss: seq<State>, steps: seq<Step>, n: nat)
    requires Run(ss, steps) && OnlyHoldersRelease(ss, steps) && n <= |steps|
    ensures MutexesOk(ss[n]) && Exclusive(ss[n]) && LockedIffHeld(ss[n]) && Prepared(ss[n]) && HoldersErase(ss[n])
    ensures n < |steps| ==> !ErasesForeign(ss[n], steps[n].thread, steps[n].action)
  {
    if n > 0 {
      HoldersRule(ss, steps, n - 1);
      hide MutexesOk, Exclusive, LockedIffHeld, Prepared, ErasesForeign, HoldersErase;
      var st := steps[n - 1];
      assert ss[n - 1 + 1] == After(ss[n - 1], st.thread, st.action);
      MutexesKept(ss[n - 1], st.thread, st.action);
      HoldersKept(ss[n - 1], st.thread, st.action);
      SetKeptIff(ss[n - 1], st.thread, st.action);
      HoldersEraseKept(ss[n - 1], st.thread, st.action);
    }
    if n < |steps| {
      HoldersEraseKept(ss[n], steps[n].thread, steps[n].action);
    }
  }

  // ----- What callers see -----

  predicate IsCall(a: Action) { a.CallTryLock? || a.CallRelease? }

  /** The latest call thread `t` made in the first `n` steps. */
  ghost function LatestCall(steps: seq<Step>, n: nat, t: Thread): Option<Action>
    requires n <= |steps|
  {
    if n == 0 then None
    else if steps[n - 1].thread == t && IsCall(steps[n - 1].action) then Some(steps[n - 1].action)
    else LatestCall(steps, n - 1, t)
  }

  /** In step `n` thread `t` returns from the call it is in. */
  ghost predicate Returns(ss: seq<State>, steps: seq<Step>, n: nat, t: Thread)
    requires |ss| == |steps| + 1 && n < |steps|
  {
    steps[n].thread == t && !PcOf(ss[n], t).Outside? && PcOf(ss[n + 1], t).Outside?
  }

  /** The keys for which `t` has returned from tryLock and has not started releaseLock since. */
  ghost function Owned(ss: seq<State>, steps: seq<Step>, n: nat, t: Thread): set<Key>
    requires |ss| == |steps| + 1 && n <= |steps|
  {
    if n == 0 then {}
    else
      var before, call, st := Owned(ss, steps, n - 1, t), LatestCall(steps, n - 1, t), steps[n - 1];
      if st.thread == t && st.action.CallRelease? then before - {st.action.key}
      else if Returns(ss, steps, n - 1, t) && call.Some? && call.value.CallTryLock? then before + {call.value.key}
      else before
  }

  /** Step `i` returned from tryLock(k), and no step of `t` from there to step `n` starts releaseLock(k). */
  ghost predicate OwnsSince(ss: seq<State>, steps: seq<Step>, n: nat, t: Thread, k: Key, i: nat)
    requires |ss| == |steps| + 1 && n <= |steps|
  {
    && i < n && Returns(ss, steps, i, t) && LatestCall(steps, i, t) == Some(CallTryLock(k))
    && forall j :: i <= j < n ==> steps[j] != Step(t, CallRelease(k))
  }

  lemma ReturnIsNoCall(ss: seq<State>, steps: seq<Step>, n: nat, t: Thread)
    requires Run(ss, steps) && n < |steps| && Returns(ss, steps, n, t)
    ensures !IsCall(steps[n].action)
  {
    assert ss[n + 1] == After(ss[n], t, steps[n].action);
  }

  lemma OwnsSinceNext(ss: seq<State>, steps: seq<Step>, n: nat, t: Thread, k: Key, i: nat)
    requires |ss| == |steps| + 1 && 0 < n <= |steps|
    ensures OwnsSince(ss, steps, n, t, k, i) <==>
            && steps[n - 1] != Step(t, CallRelease(k))
            && if i == n - 1 then Returns(ss, steps, i, t) && LatestCall(steps, i, t) == Some(CallTryLock(k))
               else OwnsSince(ss, steps, n - 1, t, k, i)
  {
    hide Returns, LatestCall;
  }

  ghost predicate OwnsSome(ss: seq<State>, steps: seq<Step>, n: nat, t: Thread, k: Key)
    requires |ss| == |steps| + 1 && n <= |steps|
  {
    exists i: nat :: OwnsSince(ss, steps, n, t, k, i)
  }

  lemma OwnsSomeNext(ss: seq<State>, steps: seq<Step>, m: nat, t: Thread, k: Key)
    requires |ss| == |steps| + 1 && m < |steps|
    ensures OwnsSome(ss, steps, m + 1, t, k) <==>
            && steps[m] != Step(t, CallRelease(k))
            && (OwnsSome(ss, steps, m, t, k)
                || (Returns(ss, steps, m, t) && LatestCall(steps, m, t) == Some(CallTryLock(k))))
  {
    hide Returns, LatestCall, OwnsSince;
    if OwnsSome(ss, steps, m + 1, t, k) {
      var i: nat :| OwnsSince(ss, steps, m + 1, t, k, i);
      OwnsSinceNext(ss, steps, m + 1, t, k, i);
    }
    if OwnsSome(ss, steps, m, t, k) {
      var i: nat :| OwnsSince(ss, steps, m, t, k, i);
      OwnsSinceNext(ss, steps, m + 1, t, k, i);
      OwnsBefore(ss, steps, m, t, k, i);
    }
    OwnsSinceNext(ss, steps, m + 1, t, k, m);
  }

  lemma OwnsBefore(ss: seq<State>, steps: seq<Step>, n: nat, t: Thread, k: Key, i: nat)
    requires |ss| == |steps| + 1 && n <= |steps|
    ensures OwnsSince(ss, steps, n, t, k, i) ==> i < n
  {
  }

  /** Owned is what the history of calls and returns says. */
  lemma {:induction false} OwnedIff(ss: seq<State>, steps: seq<Step>, n: nat, t: Thread, k: Key)
    requires Run(ss, steps) && n <= |steps|
    ensures k in Owned(ss, steps, n, t) <==> OwnsSome(ss, steps, n, t, k)
  {
    assert |ss| == |steps| + 1;
    hide Run, Returns, LatestCall;
    if n > 0 {
      OwnedIff(ss, steps, n - 1, t, k);
      OwnsSomeNext(ss, steps, n - 1, t, k);
      if Returns(ss, steps, n - 1, t) {
        ReturnIsNoCall(ss, steps, n - 1, t);
      }
      hide OwnsSome;
    }
  }

  /** A thread is where its latest call has taken it, holds the key when tryLock is about to return, and holds the keys
      it owns. */
  ghost predicate CallOk(s: State, t: Thread, call: Option<Action>, owned: set<Key>) {
    var pc := PcOf(s, t);
    && (!pc.Outside? ==>
          call == Some(if (pc.At? || pc.In?) && pc.op.Erase? then CallRelease(pc.key) else CallTryLock(pc.key)))
    && ((pc.At? || pc.In?) && pc.op.Erase? ==> pc.key !in owned)
    && (pc.Unlock? ==> (t, pc.key) in s.held)
    && forall k :: k in owned ==> (t, k) in s.held
  }

  lemma {:induction false} CallsOk(ss: seq<State>, steps: seq<Step>, n: nat, t: Thread)
    requires Run(ss, steps) && n <= |steps|
    ensures CallOk(ss[n], t, LatestCall(steps, n, t), Owned(ss, steps, n, t))
  {
    if n > 0 {
      CallsOk(ss, steps, n - 1, t);
      var s, st := ss[n - 1], steps[n - 1];
      assert ss[n - 1 + 1] == After(s, st.thread, st.action);
      if st.thread != t {
        assert PcOf(ss[n], t) == PcOf(s, t);
      }
    }
  }

  /** In every run tryLock(k) returns with the key held, and releaseLock(k) with it free. */
  lemma CallsReturn(ss: seq<State>, steps: seq<Step>, n: nat, t: Thread)
    requires Run(ss, steps) && n < |steps| && Returns(ss, steps, n, t)
    ensures LatestCall(steps, n, t).Some?
    ensures match LatestCall(steps, n, t).value
            case CallTryLock(k) => (t, k) in ss[n + 1].held
            case CallRelease(k) => (t, k) !in ss[n + 1].held && k !in ss[n + 1].locked
            case _ => false
  {
    CallsOk(ss, steps, n, t);
    assert ss[n + 1] == After(ss[n], t, steps[n].action);
  }

  /** A thread goes for the mutex only after it found the key free, and inserts only after it did so again under it. */
  lemma TestsFirst(ss: seq<State>, steps: seq<Step>, n: nat, t: Thread)
    requires Run(ss, steps) && n < |steps| && steps[n].thread == t
    ensures PcOf(ss[n + 1], t).WantMutex? ==> PcOf(ss[n + 1], t).key !in ss[n].locked
    ensures PcOf(ss[n + 1], t).At? && PcOf(ss[n + 1], t).op.Insert? ==>
              PcOf(ss[n + 1], t).key !in ss[n].locked && ss[n].mutex == Some(t)
  {
    MutexesHold(ss, steps, n);
    assert ss[n + 1] == After(ss[n], t, steps[n].action);
    assert OwnsMutex(PcOf(ss[n], t)) <==> ss[n].mutex == Some(t);
  }

  /** At most one thread is between the return of tryLock(k) and the start of releaseLock(k). */
  lemma OwnersExclude(ss: seq<State>, steps: seq<Step>, n: nat, t: Thread, u: Thread, k: Key)
    requires Run(ss, steps) && NoForeignErase(ss, steps) && n <= |steps|
    requires k in Owned(ss, steps, n, t) && k in Owned(ss, steps, n, u)
    ensures t == u && k in ss[n].locked
  {
    MutualExclusion(ss, steps, n);
    CallsOk(ss, steps, n, t);
    CallsOk(ss, steps, n, u);
    assert (t, k) in ss[n].held && (u, k) in ss[n].held;
  }

  /** A thread inside a call can always be joined by some thread that moves: the two mutexes never
      deadlock, whatever clients do. */
  lemma NoDeadlock(ss: seq<State>, steps: seq<Step>, n: nat, t: Thread)
    requires Run(ss, steps) && n <= |steps| && !PcOf(ss[n], t).Outside?
    ensures exists u, a :: Enabled(ss[n], u, a) && !a.CallTryLock? && !a.CallRelease?
  {
    MutexesHold(ss, steps, n);
    var s := ss[n];
    if s.smutex.Some? {
      assert PcOf(s, s.smutex.value).In?;
      assert Enabled(s, s.smutex.value, Section);
    } else if PcOf(s, t).WantMutex? && s.mutex.Some? {
      var u := s.mutex.value;
      assert OwnsMutex(PcOf(s, u));
      assert Enabled(s, u, if PcOf(s, u).At? then LockSmutex else UnlockMutex);
    } else {
      assert Enabled(s, t, if PcOf(s, t).At? then LockSmutex
                           else if PcOf(s, t).In? then Section
                           else if PcOf(s, t).WantMutex? then LockMutex else UnlockMutex);
    }
  }

  lemma {:induction false} MutexesHold(ss: seq<State>, steps: seq<Step>, n: nat)
    requires Run(ss, steps) && n <= |steps|
    ensures MutexesOk(ss[n])
  {
    if n > 0 {
      MutexesHold(ss, steps, n - 1);
      assert ss[n - 1 + 1] == After(ss[n - 1], steps[n - 1].thread, steps[n - 1].action);
      MutexesKept(ss[n - 1], steps[n - 1].thread, steps[n - 1].action);
    }
  }

  // ----- The client rule is needed -----

  /** All steps of an undisturbed tryLock(key). */
  function LockSteps(t: Thread, key: Key): seq<Step> {
    [Step(t, CallTryLock(key)), Step(t, LockSmutex), Step(t, Section), Step(t, LockMutex), Step(t, LockSmutex),
     Step(t, Section), Step(t, LockSmutex), Step(t, Section), Step(t, UnlockMutex)]
  }

  function ReleaseSteps(t: Thread, key: Key): seq<Step> {
    [Step(t, CallRelease(key)), Step(t, LockSmutex), Step(t, Section)]
  }

  ghost predicate Takes(s: State, steps: seq<Step>, n: State)
    decreases |steps|
  {
    if steps == [] then s == n
    else
      var st := steps[0];
      Enabled(s, st.thread, st.action) && Takes(After(s, st.thread, st.action), steps[1..], n)
  }

  /** A thread releases a key that another one holds and then locks it: both hold it. */
  lemma StrangerReleaseBreaksExclusion(t: Thread, u: Thread, key: Key)
    requires t != u
    ensures exists s :: Takes(State({}, None, None, map[], {}),
                              LockSteps(t, key) + ReleaseSteps(u, key) + LockSteps(u, key), s)
                        && !Exclusive(s)
  {
    var free := State({}, None, None, map[], {});
    var one := State({key}, None, None, map[t := Outside], {(t, key)});
    var torn := State({}, None, None, map[t := Outside, u := Outside], {(t, key)});
    var both := State({key}, None, None, map[t := Outside, u := Outside], {(t, key), (u, key)});
    LockTakes(free, t, key, one);
    assert one.pcs[u := Outside] == torn.pcs && one.held - {(u, key)} == torn.held && one.locked - {key} == {};
    ReleaseTakes(one, u, key, torn);
    assert torn.pcs[u := Outside] == both.pcs;
    LockTakes(torn, u, key, both);
    hide Takes, LockSteps, ReleaseSteps;
    TakesConcat(free, LockSteps(t, key), one, ReleaseSteps(u, key), torn);
    TakesConcat(free, LockSteps(t, key) + ReleaseSteps(u, key), torn, LockSteps(u, key), both);
    assert (t, key) in both.held && (u, key) in both.held;
  }

  lemma LockTakes(s: State, t: Thread, key: Key, n: State)
    requires s.mutex == None && s.smutex == None && PcOf(s, t).Outside? && key !in s.locked
    requires n == State(s.locked + {key}, None, None, s.pcs[t := Outside], s.held + {(t, key)})
    ensures Takes(s, LockSteps(t, key), n)
  {
    var all := LockSteps(t, key);
    var s1 := s.(pcs := s.pcs[t := At(FindFirst, key)]);
    FindTakes(s, t, key, n);
    TakeOne(s, all, 0, s1, n);
    assert all[0..] == all;
  }

  /** The first test of the set. */
  lemma FindTakes(s: State, t: Thread, key: Key, n: State)
    requires s.mutex == None && s.smutex == None && key !in s.locked
    requires n == State(s.locked + {key}, None, None, s.pcs[t := Outside], s.held + {(t, key)})
    ensures Takes(s.(pcs := s.pcs[t := At(FindFirst, key)]), LockSteps(t, key)[1..], n)
  {
    var all := LockSteps(t, key);
    var s1 := s.(pcs := s.pcs[t := At(FindFirst, key)]);
    var s2 := s.(smutex := Some(t), pcs := s.pcs[t := In(FindFirst, key)]);
    var s3 := s.(pcs := s.pcs[t := WantMutex(key)]);
    MutexTakes(s, t, key, n);
    assert After(s2, t, Section) == s3;
    TakeOne(s2, all, 2, s3, n);
    assert After(s1, t, LockSmutex) == s2;
    TakeOne(s1, all, 1, s2, n);
  }

  lemma MutexTakes(s: State, t: Thread, key: Key, n: State)
    requires s.mutex == None && s.smutex == None && key !in s.locked
    requires n == State(s.locked + {key}, None, None, s.pcs[t := Outside], s.held + {(t, key)})
    ensures Takes(s.(pcs := s.pcs[t := WantMutex(key)]), LockSteps(t, key)[3..], n)
  {
    var s3 := s.(pcs := s.pcs[t := WantMutex(key)]);
    var s4 := s.(mutex := Some(t), pcs := s.pcs[t := At(FindAgain, key)]);
    InsertTakes(s, t, key, n);
    assert After(s3, t, LockMutex) == s4;
    TakeOne(s3, LockSteps(t, key), 3, s4, n);
  }

  /** The part of tryLock under `_mutex`. */
  lemma InsertTakes(s: State, t: Thread, key: Key, n: State)
    requires s.mutex == None && s.smutex == None && key !in s.locked
    requires n == State(s.locked + {key}, None, None, s.pcs[t := Outside], s.held + {(t, key)})
    ensures Takes(s.(mutex := Some(t), pcs := s.pcs[t := At(FindAgain, key)]), LockSteps(t, key)[4..], n)
  {
    var all := LockSteps(t, key);
    var s4 := s.(mutex := Some(t), pcs := s.pcs[t := At(FindAgain, key)]);
    var s5 := s4.(smutex := Some(t), pcs := s.pcs[t := In(FindAgain, key)]);
    var s6 := s4.(pcs := s.pcs[t := At(Insert, key)]);
    var s7 := s6.(smutex := Some(t), pcs := s.pcs[t := In(Insert, key)]);
    var s8 := s4.(pcs := s.pcs[t := Unlock(key)], locked := s.locked + {key}, held := s.held + {(t, key)});
    assert After(s8, t, UnlockMutex) == n;
    TakeOne(s8, all, 8, n, n);
    assert After(s7, t, Section) == s8;
    TakeOne(s7, all, 7, s8, n);
    assert After(s6, t, LockSmutex) == s7;
    TakeOne(s6, all, 6, s7, n);
    assert After(s5, t, Section) == s6;
    TakeOne(s5, all, 5, s6, n);
    assert After(s4, t, LockSmutex) == s5;
    TakeOne(s4, all, 4, s5, n);
  }

  lemma TakeOne(s: State, all: seq<Step>, i: nat, m: State, n: State)
    requires i < |all| && Enabled(s, all[i].thread, all[i].action) && After(s, all[i].thread, all[i].action) == m
    requires if i + 1 == |all| then m == n else Takes(m, all[i + 1..], n)
    ensures Takes(s, all[i..], n)
  {
    assert all[i..][1..] == all[i + 1..];
  }

  lemma ReleaseTakes(s: State, t: Thread, key: Key, n: State)
    requires s.smutex == None && PcOf(s, t).Outside?
    requires n == State(s.locked - {key}, s.mutex, None, s.pcs[t := Outside], s.held - {(t, key)})
    ensures Takes(s, ReleaseSteps(t, key), n)
  {
    var all := ReleaseSteps(t, key);
    var s1 := s.(pcs := s.pcs[t := At(Erase, key)]);
    var s2 := s.(smutex := Some(t), pcs := s.pcs[t := In(Erase, key)]);
    assert After(s2, t, Section) == n;
    TakeOne(s2, all, 2, n, n);
    assert After(s1, t, LockSmutex) == s2;
    TakeOne(s1, all, 1, s2, n);
    TakeOne(s, all, 0, s1, n);
    assert all[0..] == all;
  }

  lemma {:induction false} TakesConcat(s: State, first: seq<Step>, m: State, second: seq<Step>, n: State)
    requires Takes(s, first, m) && Takes(m, second, n)
    ensures Takes(s, first + second, n)
    decreases |first|
  {
    if first == [] {
      assert first + second == second;
    } else {
      TakesConcat(After(s, first[0].thread, first[0].action), first[1..], m, second, n);
      assert (first + second)[1..] == first[1..] + second;
    }
  }
}
