/** Reading the perf mmap page while the kernel rewrites it: PerfReadTscConversion of pmu/spe.cpp and the
    register-reading loop of pmu/perf_counter_default.cpp.

    The kernel bumps `lock` to odd, stores the new fields one at a time in any order, and bumps `lock` to
    even. The reader loads `lock`, then the fields one at a time, then `lock` again. All loads and stores
    of both sides interleave freely. */
module Seqlock {
  import opened Words

  const MAX_RETRIES: nat := 10000

  /** One setting of all fields. PerfReadTscConversion loads time_mult, time_shift, time_zero and
      cap_user_time_zero, in this order. */
  type Version = seq<int>

  /** `Tsc` also tests that `lock` was even; `UserAccess` only tests that it did not change. */
  datatype Kind = Tsc | UserAccess

  /** The reader, in attempt `i`. `since` is how often `lock` had been bumped when it was loaded, of which
      the reader sees the low 32 bits. */
  datatype Reader =
    | Start(i: nat)
    | Loading(i: nat, since: nat, tc: Version)
    | Accepted(since: nat, tc: Version)
    | Failed

  /** `bumps` counts all increments of `lock`; `versions` are the settings published so far, the last one
      being current while `bumps` is even; `coming` is the setting being written while it is odd. */
  datatype State = State(bumps: nat, fields: Version, coming: Version, versions: seq<Version>, reader: Reader)

  datatype Step = BeginWrite(version: Version) | Store(field: nat) | EndWrite | LoadLock | LoadField | CheckLock

  function LockWord(bumps: nat): nat { bumps % TWO32 }

  predicate Odd(n: nat) { n % 2 == 1 }

  predicate Enabled(s: State, step: Step) {
    match step
    case BeginWrite(v) => !Odd(s.bumps) && |v| == |s.fields|
    case Store(k) => Odd(s.bumps) && k < |s.fields| && k < |s.coming|
    case EndWrite => Odd(s.bumps) && s.fields == s.coming
    case LoadLock => s.reader.Start?
    case LoadField => s.reader.Loading? && |s.reader.tc| < |s.fields|
    case CheckLock => s.reader.Loading? && |s.reader.tc| == |s.fields|
  }

  /** The test after the loads. */
  predicate Accepts(kind: Kind, since: nat, now: nat) {
    LockWord(now) == LockWord(since) && (kind.Tsc? ==> !Odd(LockWord(since)))
  }

  function Retry(kind: Kind, i: nat): Reader {
    if kind.Tsc? && i + 1 > MAX_RETRIES then Failed else Start(i + 1)
  }

  function After(kind: Kind, s: State, step: Step): State
    requires Enabled(s, step)
  {
    match step
    case BeginWrite(v) => s.(bumps := s.bumps + 1, coming := v)
    case Store(k) => s.(fields := s.fields[k := s.coming[k]])
    case EndWrite => s.(bumps := s.bumps + 1, versions := s.versions + [s.coming])
    case LoadLock => s.(reader := Loading(s.reader.i, s.bumps, []))
    case LoadField =>
      s.(reader := Loading(s.reader.i, s.reader.since, s.reader.tc + [s.fields[|s.reader.tc|]]))
    case CheckLock =>
      s.(reader := if Accepts(kind, s.reader.since, s.bumps) then Accepted(s.reader.since, s.reader.tc)
                   else Retry(kind, s.reader.i))
  }

  ghost predicate Initial(s: State) {
    s.bumps == 0 && s.versions == [s.fields] && s.reader == Start(0)
  }

  ghost predicate Run(kind: Kind, ss: seq<State>, steps: seq<Step>) {
    && |ss| == |steps| + 1 && Initial(ss[0])
    && forall i :: 0 <= i < |steps| ==> Enabled(ss[i], steps[i]) && ss[i + 1] == After(kind, ss[i], steps[i])
  }

  /** No attempt lasts for 2^32 bumps, so that `lock` does not come round to its old value. */
  ghost predicate NoWrap(ss: seq<State>) {
    forall i :: 0 <= i < |ss| && ss[i].reader.Loading? ==> ss[i].bumps - ss[i].reader.since < TWO32
  }

  // ----- Invariant -----

  ghost predicate WriterOk(s: State) {
    && |s.versions| == s.bumps / 2 + 1
    && (forall i :: 0 <= i < |s.versions| ==> |s.versions[i]| == |s.fields|)
    && (if Odd(s.bumps) then |s.coming| == |s.fields| else s.versions[|s.versions| - 1] == s.fields)
  }

  /** Fields loaded since an even lock that has not moved are fields of the current version. */
  ghost predicate ReaderOk(s: State) {
    && (s.reader.Loading? ==>
          && s.reader.since <= s.bumps && |s.reader.tc| <= |s.fields|
          && (!Odd(s.bumps) && s.reader.since == s.bumps ==> s.reader.tc == s.fields[..|s.reader.tc|]))
    && (s.reader.Accepted? && !Odd(s.reader.since) ==>
          s.reader.since / 2 < |s.versions| && s.reader.tc == s.versions[s.reader.since / 2])
  }

  lemma StepKeeps(kind: Kind, s: State, step: Step)
    requires WriterOk(s) && ReaderOk(s) && Enabled(s, step)
    requires s.reader.Loading? ==> s.bumps - s.reader.since < TWO32
    ensures WriterOk(After(kind, s, step)) && ReaderOk(After(kind, s, step))
  {
    match step
    case CheckLock =>
      if Accepts(kind, s.reader.since, s.bumps) { SameWordSameCount(s.reader.since, s.bumps); }
    case LoadField =>
      var n := |s.reader.tc|;
      assert s.fields[..n + 1] == s.fields[..n] + [s.fields[n]];
    case _ =>
  }

  lemma SameWordSameCount(a: nat, b: nat)
    requires a <= b < a + TWO32 && LockWord(a) == LockWord(b)
    ensures a == b
  {
    assert b - a == TWO32 * (b / TWO32 - a / TWO32);
  }

  lemma ParityOfWord(n: nat)
    ensures Odd(LockWord(n)) <==> Odd(n)
  {
    assert n == TWO32 * (n / TWO32) + LockWord(n);
  }

  lemma {:induction false} RunKeeps(kind: Kind, ss: seq<State>, steps: seq<Step>, n: nat)
    requires Run(kind, ss, steps) && NoWrap(ss) && n <= |steps|
    ensures WriterOk(ss[n]) && ReaderOk(ss[n])
  {
    if n > 0 {
      RunKeeps(kind, ss, steps, n - 1);
      StepKeeps(kind, ss[n - 1], steps[n - 1]);
      assert ss[n - 1 + 1] == After(kind, ss[n - 1], steps[n - 1]);
    }
  }

  /** In every run, an accepted PerfReadTscConversion holds the fields of one published version. */
  lemma TscReadIsConsistent(ss: seq<State>, steps: seq<Step>, n: nat)
    requires Run(Tsc, ss, steps) && NoWrap(ss) && n <= |steps| && ss[n].reader.Accepted?
    ensures ss[n].reader.tc in ss[n].versions
  {
    RunKeeps(Tsc, ss, steps, n);
    TscAcceptsEven(ss, steps, n);
  }

  lemma {:induction false} TscAcceptsEven(ss: seq<State>, steps: seq<Step>, n: nat)
    requires Run(Tsc, ss, steps) && n <= |steps| && ss[n].reader.Accepted?
    ensures !Odd(ss[n].reader.since)
  {
    if n > 0 {
      assert ss[n - 1 + 1] == After(Tsc, ss[n - 1], steps[n - 1]);
      if ss[n - 1].reader.Accepted? {
        TscAcceptsEven(ss, steps, n - 1);
      } else {
        ParityOfWord(ss[n].reader.since);
      }
    }
  }

  // ----- What the lock word counts -----

  /** How many updates were begun, plus how many were ended, in the first `n` steps. */
  ghost function Bumped(steps: seq<Step>, n: nat): nat
    requires n <= |steps|
  {
    if n == 0 then 0
    else Bumped(steps, n - 1) + if steps[n - 1].BeginWrite? || steps[n - 1].EndWrite? then 1 else 0
  }

  /** The setting of the update begun last. */
  ghost function Announced(steps: seq<Step>, n: nat): Version
    requires n <= |steps|
  {
    if n == 0 then [] else if steps[n - 1].BeginWrite? then steps[n - 1].version else Announced(steps, n - 1)
  }

  /** The settings of the updates that were ended, in order. */
  ghost function Published(steps: seq<Step>, n: nat): seq<Version>
    requires n <= |steps|
  {
    if n == 0 then []
    else Published(steps, n - 1) + if steps[n - 1].EndWrite? then [Announced(steps, n - 1)] else []
  }

  /** In every run the lock counts the beginnings and ends of updates, and the versions are the finished updates. */
  lemma {:induction false} LockCounts(kind: Kind, ss: seq<State>, steps: seq<Step>, n: nat)
    requires Run(kind, ss, steps) && n <= |steps|
    ensures ss[n].bumps == Bumped(steps, n) && ss[n].versions == [ss[0].fields] + Published(steps, n)
    ensures Odd(ss[n].bumps) ==> ss[n].coming == Announced(steps, n)
  {
    if n > 0 {
      LockCounts(kind, ss, steps, n - 1);
      assert ss[n - 1 + 1] == After(kind, ss[n - 1], steps[n - 1]);
    }
  }

  // ----- When an attempt is accepted -----

  /** The steps from `m` to `n` are one attempt of the reader, among steps of the writer. */
  ghost predicate Attempt(steps: seq<Step>, m: nat, n: nat) {
    && m < n < |steps| && steps[m] == LoadLock && steps[n] == CheckLock
    && forall j :: m < j < n ==> steps[j] != LoadLock && steps[j] != CheckLock
  }

  lemma {:induction false} AttemptLoads(kind: Kind, ss: seq<State>, steps: seq<Step>, m: nat, n: nat, j: nat)
    requires Run(kind, ss, steps) && Attempt(steps, m, n) && m < j <= n
    ensures ss[m].reader.Start? && ss[j].reader.Loading?
    ensures ss[j].reader.since == ss[m].bumps && ss[j].reader.i == ss[m].reader.i
  {
    assert ss[j - 1 + 1] == After(kind, ss[j - 1], steps[j - 1]);
    if j - 1 > m {
      AttemptLoads(kind, ss, steps, m, n, j - 1);
    }
  }

  /** An attempt is accepted exactly when the lock was not bumped during it and, for the time conversion, was even; the
      reader then has the current fields. */
  lemma AcceptsIff(kind: Kind, ss: seq<State>, steps: seq<Step>, m: nat, n: nat)
    requires Run(kind, ss, steps) && NoWrap(ss) && Attempt(steps, m, n)
    ensures ss[n + 1].reader.Accepted?
            <==> ss[n].bumps == ss[m].bumps && (kind.Tsc? ==> ss[m].bumps % 2 == 0)
    ensures ss[n + 1].reader.Accepted? && ss[m].bumps % 2 == 0 ==> ss[n + 1].reader.tc == ss[n].fields
  {
    AttemptLoads(kind, ss, steps, m, n, n);
    RunKeeps(kind, ss, steps, n);
    assert ss[n + 1] == After(kind, ss[n], steps[n]);
    ParityOfWord(ss[m].bumps);
    if LockWord(ss[n].bumps) == LockWord(ss[m].bumps) {
      SameWordSameCount(ss[m].bumps, ss[n].bumps);
    }
  }

  /** How many attempts were refused in the first `n` steps. */
  ghost function Refused(ss: seq<State>, steps: seq<Step>, n: nat): nat
    requires |ss| == |steps| + 1 && n <= |steps|
  {
    if n == 0 then 0
    else Refused(ss, steps, n - 1) + if steps[n - 1] == CheckLock && !ss[n].reader.Accepted? then 1 else 0
  }

  /** The time conversion gives up after exactly 10001 refused attempts, and the user-access read never does. */
  lemma {:induction false} GivesUp(kind: Kind, ss: seq<State>, steps: seq<Step>, n: nat)
    requires Run(kind, ss, steps) && n <= |steps|
    ensures ss[n].reader.Start? || ss[n].reader.Loading? ==> ss[n].reader.i == Refused(ss, steps, n)
    ensures kind.Tsc? && (ss[n].reader.Start? || ss[n].reader.Loading?) ==> Refused(ss, steps, n) <= 10000
    ensures ss[n].reader.Failed? ==> kind.Tsc? && Refused(ss, steps, n) == 10001
  {
    if n > 0 {
      GivesUp(kind, ss, steps, n - 1);
      assert ss[n - 1 + 1] == After(kind, ss[n - 1], steps[n - 1]);
    }
  }

  // ----- The loop without the parity test -----

  /** The user-access loop is right whenever `lock` was even when it was loaded. */
  lemma UserReadIsConsistentFromEven(ss: seq<State>, steps: seq<Step>, n: nat)
    requires Run(UserAccess, ss, steps) && NoWrap(ss) && n <= |steps| && ss[n].reader.Accepted?
    requires !Odd(ss[n].reader.since)
    ensures ss[n].reader.tc in ss[n].versions
  {
    RunKeeps(UserAccess, ss, steps, n);
  }

  /** The reader never starts an attempt in the middle of an update. */
  ghost predicate AtomicWriter(ss: seq<State>, steps: seq<Step>)
    requires |ss| == |steps| + 1
  {
    forall i :: 0 <= i < |steps| && steps[i].LoadLock? ==> !Odd(ss[i].bumps)
  }

  /** Hence it is right if the writer is atomic to the reader. */
  lemma UserReadIsConsistentIfAtomic(ss: seq<State>, steps: seq<Step>, n: nat)
    requires Run(UserAccess, ss, steps) && NoWrap(ss) && AtomicWriter(ss, steps)
    requires n <= |steps| && ss[n].reader.Accepted?
    ensures ss[n].reader.tc in ss[n].versions
  {
    LoadedEven(ss, steps, n);
    UserReadIsConsistentFromEven(ss, steps, n);
  }

  lemma {:induction false} LoadedEven(ss: seq<State>, steps: seq<Step>, n: nat)
    requires Run(UserAccess, ss, steps) && AtomicWriter(ss, steps) && n <= |steps|
    ensures ss[n].reader.Loading? || ss[n].reader.Accepted? ==> !Odd(ss[n].reader.since)
  {
    if n > 0 {
      LoadedEven(ss, steps, n - 1);
      assert ss[n - 1 + 1] == After(UserAccess, ss[n - 1], steps[n - 1]);
    }
  }

  // ----- Which updates tear -----

  ghost function Latest(s: State): Version
    requires s.versions != []
  {
    s.versions[|s.versions| - 1]
  }

  /** Inside an update every field has its last published or its coming value; outside, the last published one. */
  ghost predicate Stored(s: State) {
    && s.versions != [] && |Latest(s)| == |s.fields|
    && (if Odd(s.bumps)
        then |s.coming| == |s.fields| &&
             forall k :: 0 <= k < |s.fields| ==> s.fields[k] == Latest(s)[k] || s.fields[k] == s.coming[k]
        else Latest(s) == s.fields)
  }

  lemma StoredKept(kind: Kind, s: State, step: Step)
    requires Stored(s) && Enabled(s, step)
    ensures Stored(After(kind, s, step))
  {
  }

  lemma {:induction false} RunIsStored(kind: Kind, ss: seq<State>, steps: seq<Step>, n: nat)
    requires Run(kind, ss, steps) && n <= |steps|
    ensures Stored(ss[n])
  {
    if n > 0 {
      RunIsStored(kind, ss, steps, n - 1);
      StoredKept(kind, ss[n - 1], steps[n - 1]);
      assert ss[n - 1 + 1] == After(kind, ss[n - 1], steps[n - 1]);
    }
  }

  /** Steps of both sides that do not end the update. */
  ghost predicate Within(ss: seq<State>, steps: seq<Step>) {
    && |ss| == |steps| + 1
    && forall i :: 0 <= i < |steps| ==>
         steps[i] != EndWrite && Enabled(ss[i], steps[i]) && ss[i + 1] == After(UserAccess, ss[i], steps[i])
  }

  /** The reader has accepted fields of no version. */
  ghost predicate Torn(s: State) {
    s.versions != [] && s.reader.Accepted? && s.reader.tc != Latest(s) && s.reader.tc != s.coming
  }

  ghost predicate Tears(s: State) {
    exists ss, steps :: TearingRun(s, ss, steps)
  }

  ghost predicate TearingRun(s: State, ss: seq<State>, steps: seq<Step>) {
    Within(ss, steps) && ss[0] == s && Torn(ss[|steps|])
  }

  /** A field is still to be stored, and the update changes another one too. */
  ghost predicate CanTear(s: State)
    requires Stored(s) && Odd(s.bumps)
  {
    exists k, l :: 0 <= k < |s.fields| && 0 <= l < |s.fields| && k != l
                   && s.fields[k] == Latest(s)[k] != s.coming[k] && Latest(s)[l] != s.coming[l]
  }

  lemma WithinCons(s: State, step: Step, ss: seq<State>, steps: seq<Step>)
    requires Within(ss, steps) && step != EndWrite && Enabled(s, step) && ss[0] == After(UserAccess, s, step)
    ensures Within([s] + ss, [step] + steps) && ([s] + ss)[|steps| + 1] == ss[|steps|]
  {
    var all, more := [s] + ss, [step] + steps;
    forall i | 0 <= i < |more|
      ensures more[i] != EndWrite && Enabled(all[i], more[i]) && all[i + 1] == After(UserAccess, all[i], more[i])
    {
      if i > 0 {
        assert all[i] == ss[i - 1] && more[i] == steps[i - 1] && ss[i - 1 + 1] == all[i + 1];
      }
    }
  }

  /** The reader loads what is there, undisturbed, and accepts it. */
  lemma {:induction false} LoadRest(s: State) returns (ss: seq<State>, steps: seq<Step>)
    requires s.reader.Loading? && s.reader.since == s.bumps
    requires |s.reader.tc| <= |s.fields| && s.reader.tc == s.fields[..|s.reader.tc|]
    ensures Within(ss, steps) && ss[0] == s && ss[|steps|] == s.(reader := Accepted(s.bumps, s.fields))
    decreases |s.fields| - |s.reader.tc|
  {
    var n := |s.reader.tc|;
    var step := if n < |s.fields| then LoadField else CheckLock;
    var next := After(UserAccess, s, step);
    if n < |s.fields| {
      assert s.fields[..n + 1] == s.fields[..n] + [s.fields[n]];
      ss, steps := LoadRest(next);
    } else {
      assert s.fields[..n] == s.fields;
      ss, steps := [next], [];
    }
    WithinCons(s, step, ss, steps);
    ss, steps := [s] + ss, [step] + steps;
  }

  /** The run that tears: store one field, then read them all. */
  lemma StoreAndRead(s: State, k: nat, l: nat)
    requires Stored(s) && Odd(s.bumps) && s.reader.Start? && k < |s.fields| && l < |s.fields| && k != l
    requires s.fields[k] == Latest(s)[k] != s.coming[k] && Latest(s)[l] != s.coming[l]
    ensures Tears(s)
  {
    var stored := After(UserAccess, s, Store(l));
    var loading := After(UserAccess, stored, LoadLock);
    var ss, steps := LoadRest(loading);
    WithinCons(stored, LoadLock, ss, steps);
    WithinCons(s, Store(l), [stored] + ss, [LoadLock] + steps);
    var all, more := [s] + ([stored] + ss), [Store(l)] + ([LoadLock] + steps);
    var last := all[|more|];
    assert last == loading.(reader := Accepted(loading.bumps, stored.fields));
    assert stored.fields[k] == s.fields[k] && stored.fields[l] == s.coming[l];
    assert TearingRun(s, all, more);
  }

  /** The update changes at most one field. */
  ghost predicate OneChange(s: State)
    requires Stored(s) && Odd(s.bumps)
  {
    forall k, l | 0 <= k < |s.fields| && 0 <= l < |s.fields| ::
      Latest(s)[k] != s.coming[k] && Latest(s)[l] != s.coming[l] ==> k == l
  }

  /** Each value loaded is a last published or a coming one; all are coming ones if nothing is left to store. */
  ghost predicate LoadedOk(s: State, tc: Version)
    requires Stored(s) && Odd(s.bumps)
  {
    && |tc| <= |s.fields|
    && (if OneChange(s) then forall k :: 0 <= k < |tc| ==> tc[k] == Latest(s)[k] || tc[k] == s.coming[k]
        else s.fields == s.coming && tc == s.coming[..|tc|])
  }

  /** The update cannot tear: it changes one field, or all its fields are stored. */
  ghost predicate Harmless(s: State) {
    && Stored(s) && Odd(s.bumps) && (OneChange(s) || s.fields == s.coming)
    && (s.reader.Loading? ==> LoadedOk(s, s.reader.tc))
    && (s.reader.Accepted? ==> LoadedOk(s, s.reader.tc) && |s.reader.tc| == |s.fields|)
  }

  lemma HarmlessKept(s: State, step: Step)
    requires Harmless(s) && step != EndWrite && Enabled(s, step)
    ensures Harmless(After(UserAccess, s, step))
  {
    StoredKept(UserAccess, s, step);
    var t := After(UserAccess, s, step);
    assert t.versions == s.versions && t.coming == s.coming && t.bumps == s.bumps;
    assert OneChange(t) <==> OneChange(s);
    if step.LoadField? && !OneChange(s) {
      var n := |s.reader.tc|;
      assert s.coming[..n + 1] == s.coming[..n] + [s.coming[n]];
    }
    if step.Store? && !OneChange(s) {
      assert t.fields == s.fields;
    }
  }

  lemma HarmlessIsWhole(s: State)
    requires Harmless(s)
    ensures !Torn(s)
  {
    if s.reader.Accepted? {
      var tc := s.reader.tc;
      if OneChange(s) {
        if k :| 0 <= k < |tc| && Latest(s)[k] != s.coming[k] {
          assert if tc[k] == Latest(s)[k] then tc == Latest(s) else tc == s.coming;
        } else {
          assert tc == s.coming;
        }
      } else {
        assert s.coming[..|tc|] == s.coming;
      }
    }
  }

  lemma {:induction false} WithinHarmless(ss: seq<State>, steps: seq<Step>, n: nat)
    requires Within(ss, steps) && Harmless(ss[0]) && n <= |steps|
    ensures Harmless(ss[n])
  {
    if n > 0 {
      WithinHarmless(ss, steps, n - 1);
      HarmlessKept(ss[n - 1], steps[n - 1]);
      assert ss[n - 1 + 1] == After(UserAccess, ss[n - 1], steps[n - 1]);
    }
  }

  lemma NeverTorn(ss: seq<State>, steps: seq<Step>)
    requires Within(ss, steps) && Harmless(ss[0])
    ensures !Torn(ss[|steps|])
  {
    WithinHarmless(ss, steps, |steps|);
    HarmlessIsWhole(ss[|steps|]);
  }

  /** A reader that starts inside an update can accept a mixture before the update ends exactly when a changed field is
      still to be stored and the update changes another one too. */
  lemma TearsIff(s: State)
    requires Stored(s) && Odd(s.bumps) && s.reader.Start?
    ensures Tears(s) <==> CanTear(s)
  {
    hide Within;
    if CanTear(s) {
      var k, l :| 0 <= k < |s.fields| && 0 <= l < |s.fields| && k != l
                  && s.fields[k] == Latest(s)[k] != s.coming[k] && Latest(s)[l] != s.coming[l];
      StoreAndRead(s, k, l);
    } else {
      NothingToTear(s);
      if Tears(s) {
        var ss, steps :| TearingRun(s, ss, steps);
        NeverTorn(ss, steps);
      }
    }
  }

  lemma NothingToTear(s: State)
    requires Stored(s) && Odd(s.bumps) && s.reader.Start? && !CanTear(s)
    ensures Harmless(s)
  {
    if s.fields != s.coming {
      var k :| 0 <= k < |s.fields| && s.fields[k] != s.coming[k];
      assert s.fields[k] == Latest(s)[k];
      assert forall l :: 0 <= l < |s.fields| && l != k ==> Latest(s)[l] == s.coming[l];
    }
  }

  /** In every run. */
  lemma UserReadTearsIff(ss: seq<State>, steps: seq<Step>, n: nat)
    requires Run(UserAccess, ss, steps) && n <= |steps| && Odd(ss[n].bumps) && ss[n].reader.Start?
    ensures Stored(ss[n]) && (Tears(ss[n]) <==> CanTear(ss[n]))
  {
    RunIsStored(UserAccess, ss, steps, n);
    TearsIff(ss[n]);
  }

  /** An update can tear some reader exactly when it changes at least two fields. */
  lemma UpdateTearsIff(s: State, version: Version)
    requires Stored(s) && s.reader.Start? && Enabled(s, BeginWrite(version))
    ensures Tears(After(UserAccess, s, BeginWrite(version)))
       <==> exists k, l :: 0 <= k < |version| && 0 <= l < |version| && k != l
                           && s.fields[k] != version[k] && s.fields[l] != version[l]
  {
    hide Tears;
    var t := After(UserAccess, s, BeginWrite(version));
    StoredKept(UserAccess, s, BeginWrite(version));
    TearsIff(t);
  }

  lemma {:induction false} WithinUpdate(ss: seq<State>, steps: seq<Step>, n: nat)
    requires Within(ss, steps) && Odd(ss[0].bumps) && n <= |steps|
    ensures ss[n].bumps == ss[0].bumps && ss[n].versions == ss[0].versions
  {
    if n > 0 {
      WithinUpdate(ss, steps, n - 1);
      assert ss[n - 1 + 1] == After(UserAccess, ss[n - 1], steps[n - 1]);
    }
  }

  /** For example the first update of two fields, from the start. */
  lemma UserReadCanTear()
    ensures exists ss: seq<State>, steps: seq<Step> ::
              && Run(UserAccess, ss, steps) && NoWrap(ss)
              && var last := ss[|steps|];
                 last.reader.Accepted? && last.reader.tc !in last.versions && last.reader.tc != last.coming
  {
    var s0 := State(0, [1, 1], [], [[1, 1]], Start(0));
    var begin := BeginWrite([2, 2]);
    var s1 := After(UserAccess, s0, begin);
    assert s0.fields[0] != [2, 2][0] && s0.fields[1] != [2, 2][1];
    UpdateTearsIff(s0, [2, 2]);
    var ss, steps :| TearingRun(s1, ss, steps);
    WithinCons(s0, begin, ss, steps);
    var all, more := [s0] + ss, [begin] + steps;
    forall i | 0 <= i < |all| && all[i].reader.Loading?
      ensures all[i].bumps - all[i].reader.since < TWO32
    {
      if i > 0 { WithinUpdate(ss, steps, i - 1); }
    }
    WithinUpdate(ss, steps, |steps|);
    assert Run(UserAccess, all, more) && NoWrap(all);
    assert all[|more|] == ss[|steps|];
  }
}
