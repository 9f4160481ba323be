/** SetTidByTimestamp of pmu/spe.cpp: records without a thread id get the thread that was switched out by
    the first context switch after them. The search index is carried from record to record. */
module SpeTid {
  import opened Words
  import opened FixedPoint
  import opened SpeDecoder

  /** ContextSwitchData. Entries 1 .. num-2 are switch-ins, entry num-1 is the last switch-out. */
  datatype Switch = Switch(pid: u32, tid: u32, time: u64)

  /** What a scan needs to know and does not change; `time` converts a record's counter to perf time. */
  datatype Env = Env(dummy: seq<Switch>, num: nat, cpu: int, time: u64 -> u64)

  /** The conversion with fields read from the mmap page. */
  function TscConversion(zero: u64, mult: u32, shift: nat): u64 -> u64
    requires shift < 64
  {
    (cyc: u64) => TscToPerfTime(cyc, zero, mult, shift)
  }

  ghost predicate Sane(env: Env) { 2 <= env.num <= |env.dummy| }

  function TimeOf(env: Env, r: SpeRecord): u64 { env.time(r.timestamp) }

  /** The first entry in lo .. hi-1 that is later than `t`, or `hi`. */
  function FirstLater(dummy: seq<Switch>, lo: nat, hi: nat, t: u64): (j: nat)
    requires lo <= hi <= |dummy|
    ensures lo <= j <= hi
    ensures forall k :: lo <= k < j ==> dummy[k].time <= t
    ensures j < hi ==> dummy[j].time > t
    decreases hi - lo
  {
    if lo == hi then hi else if dummy[lo].time > t then lo else FirstLater(dummy, lo + 1, hi, t)
  }

  function Timed(env: Env, r: SpeRecord): SpeRecord { r.(cpu := env.cpu, timestamp := TimeOf(env, r)) }

  function Named(r: SpeRecord, s: Switch): SpeRecord { r.(pid := s.pid, tid := s.tid) }

  predicate Lost(r: SpeRecord) { r.tid == MINUS_ONE64 }

  /** One record: the record afterwards and the carried index. */
  function Step(env: Env, idx: nat, r: SpeRecord): (SpeRecord, nat)
    requires 2 <= env.num <= |env.dummy|
  {
    var timed := Timed(env, r);
    if !Lost(r) then (timed, idx)
    else if idx >= env.num - 1 then (Named(timed, env.dummy[env.num - 1]), idx)
    else
      var j := FirstLater(env.dummy, idx, env.num - 1, timed.timestamp);
      (if j < env.num - 1 then Named(timed, env.dummy[j]) else timed, j)
  }

  /** All records in turn, starting with index `idx`. */
  ghost function Assign(env: Env, idx: nat, recs: seq<SpeRecord>): (r: (seq<SpeRecord>, nat))
    requires Sane(env)
    ensures |r.0| == |recs|
  {
    if recs == [] then ([], idx)
    else
      var n := |recs| - 1;
      var before := Assign(env, idx, recs[..n]);
      var last := Step(env, before.1, recs[n]);
      (before.0 + [last.0], last.1)
  }

  lemma {:induction false} AssignConcat(env: Env, idx: nat, a: seq<SpeRecord>, b: seq<SpeRecord>)
    requires Sane(env)
    ensures var first := Assign(env, idx, a);
            var second := Assign(env, first.1, b);
            Assign(env, idx, a + b) == (first.0 + second.0, second.1)
    decreases |b|
  {
    if b == [] {
      assert a + b == a;
      assert Assign(env, idx, a).0 + [] == Assign(env, idx, a).0;
    } else {
      var n := |b| - 1;
      AssignConcat(env, idx, a, b[..n]);
      assert (a + b)[..|a + b| - 1] == a + b[..n] && (a + b)[|a + b| - 1] == b[n];
      var first := Assign(env, idx, a);
      var second := Assign(env, first.1, b[..n]);
      var last := Step(env, second.1, b[n]).0;
      assert (first.0 + second.0) + [last] == first.0 + (second.0 + [last]);
    }
  }

  /** SetTidByTimestamp on slots buf .. bufEnd-1. */
  method SetTidByTimestamp(env: Env, dummyIdx0: nat, recs: array<SpeRecord>, buf: nat, bufEnd: nat)
    returns (dummyIdx: nat)
    requires Sane(env) && buf <= bufEnd <= recs.Length
    modifies recs
    ensures (recs[buf..bufEnd], dummyIdx) == Assign(env, dummyIdx0, old(recs[buf..bufEnd]))
    ensures recs[..buf] == old(recs[..buf]) && recs[bufEnd..] == old(recs[bufEnd..])
  {
    dummyIdx := dummyIdx0;
    var start := buf;
    ghost var was := recs[..];
    while start < bufEnd
      invariant buf <= start <= bufEnd
      invariant (recs[buf..start], dummyIdx) == Assign(env, dummyIdx0, was[buf..start])
      invariant recs[..buf] == was[..buf] && recs[start..] == was[start..]
    {
      assert recs[start] == was[start];
      var out;
      out, dummyIdx := SetTid(env, dummyIdx, recs[start]);
      recs[start] := out;
      assert was[buf..start + 1][..start - buf] == was[buf..start];
      assert recs[buf..start + 1] == recs[buf..start] + [out];
      start := start + 1;
    }
  }

  /** The loop body for one record. */
  method SetTid(env: Env, dummyIdx0: nat, r: SpeRecord) returns (out: SpeRecord, dummyIdx: nat)
    requires Sane(env)
    ensures (out, dummyIdx) == Step(env, dummyIdx0, r)
  {
    dummyIdx := dummyIdx0;
    var time := TimeOf(env, r);
    out := r.(cpu := env.cpu, timestamp := time);
    if r.tid != MINUS_ONE64 { return; }
    if dummyIdx >= env.num - 1 {
      out := Named(out, env.dummy[env.num - 1]);
      return;
    }
    while dummyIdx < env.num - 1
      invariant dummyIdx0 <= dummyIdx <= env.num - 1
      invariant FirstLater(env.dummy, dummyIdx0, env.num - 1, time)
                == FirstLater(env.dummy, dummyIdx, env.num - 1, time)
    {
      if env.dummy[dummyIdx].time > time {
        out := Named(out, env.dummy[dummyIdx]);
        return;
      }
      dummyIdx := dummyIdx + 1;
    }
  }

  // ----- The carried scan against the plain search -----

  /** The plain search: first switch-in later than the record, else the last switch-out. */
  function Naive(env: Env, r: SpeRecord): (j: nat)
    requires 2 <= env.num <= |env.dummy|
    ensures 1 <= j <= env.num - 1
  {
    FirstLater(env.dummy, 1, env.num - 1, TimeOf(env, r))
  }

  /** Among the records without thread id, time does not go back. */
  ghost predicate InOrder(env: Env, recs: seq<SpeRecord>) {
    forall i, k :: 0 <= i < k < |recs| && Lost(recs[i]) && Lost(recs[k]) ==>
      TimeOf(env, recs[i]) <= TimeOf(env, recs[k])
  }

  /** Record `i` is the one on which the scan runs out of switch-ins. */
  ghost predicate Exhausts(env: Env, recs: seq<SpeRecord>, i: nat)
    requires Sane(env) && i < |recs|
  {
    && env.num > 2 && Lost(recs[i]) && Naive(env, recs[i]) == env.num - 1
    && forall k :: 0 <= k < i && Lost(recs[k]) ==> Naive(env, recs[k]) < env.num - 1
  }

  /** At most one record does. */
  lemma ExhaustsOnce(env: Env, recs: seq<SpeRecord>, i: nat, k: nat)
    requires Sane(env) && i < |recs| && k < |recs| && Exhausts(env, recs, i) && Exhausts(env, recs, k)
    ensures i == k
  {
  }

  lemma {:induction false} SkipPassed(dummy: seq<Switch>, lo: nat, mid: nat, hi: nat, t: u64)
    requires lo <= mid <= hi <= |dummy|
    requires forall k :: lo <= k < mid ==> dummy[k].time <= t
    ensures FirstLater(dummy, lo, hi, t) == FirstLater(dummy, mid, hi, t)
    decreases mid - lo
  {
    if lo < mid { SkipPassed(dummy, lo + 1, mid, hi, t); }
  }

  /** Where the carried index stands: at the plain search's answer for the latest record without id. */
  ghost predicate IndexOk(env: Env, recs: seq<SpeRecord>, idx: nat)
    requires Sane(env)
  {
    && 1 <= idx <= env.num - 1
    && (idx == 1 || exists k :: 0 <= k < |recs| && Lost(recs[k]) && Naive(env, recs[k]) == idx)
    && (forall k :: 0 <= k < |recs| && Lost(recs[k]) ==> Naive(env, recs[k]) <= idx)
  }

  /** The switches before the carried index are not later than the record. */
  lemma PassedBefore(env: Env, recs: seq<SpeRecord>, idx: nat, r: SpeRecord)
    requires Sane(env) && IndexOk(env, recs, idx)
    requires forall k :: 0 <= k < |recs| && Lost(recs[k]) ==> TimeOf(env, recs[k]) <= TimeOf(env, r)
    ensures forall k :: 1 <= k < idx ==> env.dummy[k].time <= TimeOf(env, r)
  {
  }

  /** The scan starting at the carried index agrees with the plain search. */
  lemma StepIsNaive(env: Env, recs: seq<SpeRecord>, idx: nat, r: SpeRecord)
    requires Sane(env) && IndexOk(env, recs, idx)
    requires forall k :: 0 <= k < |recs| && Lost(recs[k]) ==> TimeOf(env, recs[k]) <= TimeOf(env, r)
    ensures idx < env.num - 1 ==> FirstLater(env.dummy, idx, env.num - 1, TimeOf(env, r)) == Naive(env, r)
    ensures idx == env.num - 1 ==> Naive(env, r) == env.num - 1
    ensures idx <= Naive(env, r)
  {
    PassedBefore(env, recs, idx, r);
    hide IndexOk, TimeOf;
    SkipPassed(env.dummy, 1, idx, env.num - 1, TimeOf(env, r));
  }

  /** The answer for the latest record without id is where the index stands next. */
  lemma IndexMoves(env: Env, recs: seq<SpeRecord>, idx: nat, r: SpeRecord)
    requires Sane(env) && IndexOk(env, recs, idx) && Lost(r) && idx <= Naive(env, r)
    ensures IndexOk(env, recs + [r], Naive(env, r))
  {
    hide FirstLater, Naive, Lost;
    assert (recs + [r])[|recs|] == r && forall k :: 0 <= k < |recs| ==> (recs + [r])[k] == recs[k];
  }

  lemma {:induction false} IndexStaysOk(env: Env, recs: seq<SpeRecord>)
    requires Sane(env) && InOrder(env, recs)
    ensures IndexOk(env, recs, Assign(env, 1, recs).1)
    decreases |recs|
  {
    if recs != [] {
      var n := |recs| - 1;
      IndexStaysOk(env, recs[..n]);
      var idx := Assign(env, 1, recs[..n]).1;
      assert recs == recs[..n] + [recs[n]];
      if Lost(recs[n]) {
        StepIsNaive(env, recs[..n], idx, recs[n]);
        IndexMoves(env, recs[..n], idx, recs[n]);
      } else {
        IndexUnmoved(env, recs[..n], recs[n], idx);
      }
    }
  }

  lemma IndexUnmoved(env: Env, recs: seq<SpeRecord>, r: SpeRecord, idx: nat)
    requires Sane(env) && IndexOk(env, recs, idx) && !Lost(r)
    ensures IndexOk(env, recs + [r], idx)
  {
    if idx != 1 {
      var k :| 0 <= k < |recs| && Lost(recs[k]) && Naive(env, recs[k]) == idx;
      assert (recs + [r])[k] == recs[k];
    }
  }

  lemma {:induction false} AssignAt(env: Env, idx: nat, recs: seq<SpeRecord>, i: nat)
    requires Sane(env) && i < |recs|
    ensures Assign(env, idx, recs).0[i] == Step(env, Assign(env, idx, recs[..i]).1, recs[i]).0
    decreases |recs|
  {
    var n := |recs| - 1;
    if i < n {
      AssignAt(env, idx, recs[..n], i);
      assert recs[..n][..i] == recs[..i];
    }
  }

  /** What one step does to a record without id, in terms of the plain search. */
  lemma StepOutcome(env: Env, r: SpeRecord, idx: nat, exhausts: bool)
    requires Sane(env) && Lost(r) && 1 <= idx <= env.num - 1
    requires idx < env.num - 1 ==> FirstLater(env.dummy, idx, env.num - 1, TimeOf(env, r)) == Naive(env, r)
    requires idx == env.num - 1 ==> Naive(env, r) == env.num - 1
    requires exhausts <==> idx < env.num - 1 && Naive(env, r) == env.num - 1
    ensures var named := Named(Timed(env, r), env.dummy[Naive(env, r)]);
            && Step(env, idx, r).0 == (if exhausts then Timed(env, r) else named)
            && Timed(env, r) != named
  {
    assert env.dummy[Naive(env, r)].tid != MINUS_ONE64 == Timed(env, r).tid;
  }

  /** The scan runs out on record `i` exactly when the index had not run out before and does now. */
  lemma ExhaustedIndex(env: Env, recs: seq<SpeRecord>, i: nat, idx: nat)
    requires Sane(env) && i < |recs| && Lost(recs[i]) && IndexOk(env, recs[..i], idx)
    ensures Exhausts(env, recs, i) <==> idx < env.num - 1 && Naive(env, recs[i]) == env.num - 1
  {
    assert forall k :: 0 <= k < i ==> recs[..i][k] == recs[k];
  }

  /** Every record of a scan is named right. Switch times need not be sorted. */
  lemma ScanIsNaive(env: Env, recs: seq<SpeRecord>, i: nat)
    requires Sane(env) && InOrder(env, recs) && i < |recs|
    ensures NamedRight(env, recs, i, Assign(env, 1, recs).0[i])
  {
    AssignAt(env, 1, recs, i);
    if Lost(recs[i]) {
      var before := recs[..i];
      IndexStaysOk(env, before);
      var idx := Assign(env, 1, before).1;
      StepIsNaive(env, before, idx, recs[i]);
      ExhaustedIndex(env, recs, i, idx);
      StepOutcome(env, recs[i], idx, Exhausts(env, recs, i));
    }
  }

  /** The record `out` after the scan, for record `i` of `recs`: one with an id keeps it; one without gets the plain
      search's task, except exactly the record that exhausts the scan. */
  ghost predicate NamedRight(env: Env, recs: seq<SpeRecord>, i: nat, out: SpeRecord)
    requires Sane(env) && i < |recs|
  {
    var timed := recs[i].(cpu := env.cpu, timestamp := env.time(recs[i].timestamp));
    var switch := env.dummy[Naive(env, recs[i])];
    && (recs[i].tid != MINUS_ONE64 ==> out == timed)
    && (recs[i].tid == MINUS_ONE64 ==>
          (out == timed.(pid := switch.pid, tid := switch.tid) <==> !Exhausts(env, recs, i)))
    && (Exhausts(env, recs, i) ==> out == timed)
  }

  /** Records whose counter does not go back, and whose times fit 64 bits, are in order of time. */
  lemma RawOrderIsOrder(env: Env, recs: seq<SpeRecord>, zero: u64, mult: u32, shift: nat)
    requires shift <= 32 && env.time == TscConversion(zero, mult, shift)
    requires forall i, k :: 0 <= i < k < |recs| && Lost(recs[i]) && Lost(recs[k]) ==>
               recs[i].timestamp <= recs[k].timestamp
    requires forall i :: 0 <= i < |recs| && Lost(recs[i]) ==> zero + Scaled(recs[i].timestamp, mult, shift) < TWO64
    ensures InOrder(env, recs)
  {
    hide Lost, Scaled, TscToPerfTime;
    forall i, k | 0 <= i < k < |recs| && Lost(recs[i]) && Lost(recs[k])
      ensures TimeOf(env, recs[i]) <= TimeOf(env, recs[k])
    {
      TscMonotone(recs[i].timestamp, recs[k].timestamp, zero, mult, shift);
    }
  }
}
