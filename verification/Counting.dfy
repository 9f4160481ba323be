/**
  PerfCounterDefault: reading counters. Each read reports how much a counter grew since the last one, scaled by the
  share of the time it was running; ratios are exact here.
*/
module Counting {

  /** A read of one counter: its value and the times the event was enabled and running. */
  datatype Sample = Sample(value: nat, enabled: nat, running: nat)

  const ZERO := Sample(0, 0, 0)

  /** The scale factor of a read. */
  function Ratio(enabled: nat, running: nat): real
    requires running > 0
  {
    enabled as real / running as real
  }

  /** The count CountValueToData reports for a growth of `grown`. */
  function Reported(user: bool, grown: nat, enabled: nat, running: nat): (r: nat) {
    if user then grown
    else if grown == 0 || running == 0 then 0
    else Scaled(grown, enabled, running)
  }

  /** The scaled growth, before it is rounded down. */
  function Exact(grown: nat, enabled: nat, running: nat): (x: real)
    requires running > 0
    ensures x >= 0.0
  {
    grown as real * Ratio(enabled, running)
  }

  function Scaled(grown: nat, enabled: nat, running: nat): (r: nat)
    requires running > 0
  {
    Exact(grown, enabled, running).Floor
  }

  /** In integers: the count times the running time is the growth times the enabled time, up to one running time. */
  lemma ReportedBounds(grown: nat, enabled: nat, running: nat)
    requires running > 0
    ensures var c := Reported(false, grown, enabled, running); c * running <= grown * enabled < (c + 1) * running
  {
    var c := Reported(false, grown, enabled, running);
    hide Exact;
    if grown > 0 {
      ExactIsQuotient(grown, enabled, running);
      Within(c, Exact(grown, enabled, running), running, grown * enabled);
    }
  }

  lemma Within(c: nat, exact: real, running: nat, m: nat)
    requires running > 0 && c as real <= exact < c as real + 1.0 && exact * running as real == m as real
    ensures c * running <= m < (c + 1) * running
  {
    var t := running as real;
    calc {
      c as real * t;
    <= { Bigger(c as real, exact, t); }
      exact * t;
    ==
      m as real;
    }
    calc {
      m as real;
    ==
      exact * t;
    < { Larger(exact, c as real + 1.0, t); }
      (c as real + 1.0) * t;
    }
    BackToInts(c, m, running);
  }

  lemma ExactIsQuotient(grown: nat, enabled: nat, running: nat)
    requires running > 0
    ensures Exact(grown, enabled, running) * running as real == (grown * enabled) as real
  {
    var g, e, t := grown as real, enabled as real, running as real;
    Undo(e, t);
    assert g * (e / t) * t == g * (e / t * t);
    IntProduct(grown, enabled, grown * enabled);
  }

  lemma Undo(e: real, t: real)
    requires t > 0.0
    ensures e / t * t == e
  {
  }

  lemma IntProduct(a: nat, b: nat, m: nat)
    requires m == a * b
    ensures m as real == a as real * b as real
  {
  }

  lemma Bigger(a: real, b: real, t: real)
    requires a <= b && t > 0.0
    ensures a * t <= b * t
  {
  }

  lemma Larger(a: real, b: real, t: real)
    requires a < b && t > 0.0
    ensures a * t < b * t
  {
  }

  lemma BackToInts(c: nat, m: nat, running: nat)
    requires c as real * running as real <= m as real < (c as real + 1.0) * running as real
    ensures c * running <= m < (c + 1) * running
  {
    IntProduct(c, running, c * running);
    IntProduct(c + 1, running, (c + 1) * running);
    assert (c + 1) as real == c as real + 1.0;
  }

  // ----- The counter object -----

  /** A group read: the values of the members and the times they share. */
  datatype GroupRead = GroupRead(values: seq<nat>, enabled: nat, running: nat)

  class Counter {
    const userAccess: bool
    var accum: seq<nat>
    var enabled: nat
    var running: nat

    constructor (userAccess: bool)
      ensures this.userAccess == userAccess && accum == [] && enabled == 0 && running == 0
    {
      this.userAccess, accum, enabled, running := userAccess, [], 0, 0;
    }

    /** Enable starts a run: nothing accumulated, no time passed. */
    method Enable()
      modifies this
      ensures accum == [] && enabled == 0 && running == 0
    {
      accum, enabled, running := [], 0, 0;
    }

    /** What the counter has accumulated before a read of `n` members. */
    function Before(n: nat): seq<nat>
      reads this
    {
      if accum == [] then seq(n, _ => 0) else accum
    }

    /** CountValueToData for member `i`: overflow when anything went backwards. */
    method CountValueToData(value: nat, timeEnabled: nat, timeRunning: nat, i: nat) returns (ok: bool, count: nat)
      requires i < |accum|
      modifies `accum
      ensures ok <==> value >= old(accum[i]) && timeEnabled >= enabled && timeRunning >= running
      ensures ok ==> count == Reported(userAccess, value - old(accum[i]), timeEnabled - enabled, timeRunning - running)
      ensures ok && !userAccess && timeRunning > running ==>
                count * (timeRunning - running) <= (value - old(accum[i])) * (timeEnabled - enabled)
                < (count + 1) * (timeRunning - running)
      ensures ok && !userAccess && timeRunning == running ==> count == 0
      ensures ok && userAccess ==> count == value - old(accum[i])
      ensures accum == if ok then old(accum)[i := value] else old(accum)
    {
      if value < accum[i] || timeEnabled < enabled || timeRunning < running {
        return false, 0;
      }
      if userAccess {
        count := value - accum[i];
      } else if value == accum[i] || timeRunning == running {
        count := 0;
      } else {
        var percent := Ratio(timeEnabled - enabled, timeRunning - running);
        var scaled := (value - accum[i]) as real * percent;
        assert scaled == Exact(value - accum[i], timeEnabled - enabled, timeRunning - running);
        count := scaled.Floor;
      }
      if timeRunning > running {
        ReportedBounds(value - accum[i], timeEnabled - enabled, timeRunning - running);
      }
      accum := accum[i := value];
      ok := true;
    }

    /** ReadGroupEvents, and ReadSingleEvent for one value: every member is scaled by the same times, and the times
        move on only when every member was read. */
    method ReadGroupEvents(read: GroupRead) returns (ok: bool, counts: seq<nat>)
      requires accum == [] || |accum| == |read.values|
      modifies this
      ensures ok <==> read.values == [] || Grows(old(Before(|read.values|)), old(enabled), old(running), read)
      ensures ok ==> accum == read.values && enabled == read.enabled && running == read.running
      ensures ok && read.values != [] ==>
                counts == Counts(userAccess, old(Before(|read.values|)), old(enabled), old(running), read)
      ensures !ok ==> enabled == old(enabled) && running == old(running) && |counts| < |read.values|
      ensures !ok ==> accum == read.values[..|counts|] + old(Before(|read.values|))[|counts|..]
    {
      hide Reported, Advances;
      if accum == [] {
        accum := seq(|read.values|, _ => 0);
      }
      ok, counts := ReadMembers(read);
      if ok {
        enabled, running := read.enabled, read.running;
      }
    }

    /** The loop over the members. */
    method ReadMembers(read: GroupRead) returns (ok: bool, counts: seq<nat>)
      requires |accum| == |read.values|
      modifies `accum
      ensures ok <==> read.values == [] || Grows(old(accum), enabled, running, read)
      ensures |counts| <= |read.values| && accum == read.values[..|counts|] + old(accum)[|counts|..]
      ensures ok <==> |counts| == |read.values|
      ensures ok && read.values != [] ==> counts == Counts(userAccess, old(accum), enabled, running, read)
    {
      ghost var was := accum;
      counts := [];
      for i := 0 to |accum|
        invariant |accum| == |was| && |counts| == i && accum == read.values[..i] + was[i..]
        invariant forall j :: 0 <= j < i ==> IsCount(userAccess, was, enabled, running, read, j, counts[j])
      {
        hide Reported;
        PrefixStep(read.values, was, i);
        assert accum[i] == was[i];
        var good, count := CountValueToData(read.values[i], read.enabled, read.running, i);
        if !good {
          assert !Advances(was[i], enabled, running, read, i);
          return false, counts;
        }
        counts := counts + [count];
      }
      AllCounted(userAccess, was, enabled, running, read, counts);
      ok := true;
    }
  }

  ghost predicate IsCount(user: bool, was: seq<nat>, enabled: nat, running: nat, read: GroupRead, i: int, count: nat) {
    && 0 <= i < |was| && i < |read.values| && Advances(was[i], enabled, running, read, i)
    && count == Reported(user, read.values[i] - was[i], read.enabled - enabled, read.running - running)
  }

  lemma AllCounted(user: bool, was: seq<nat>, enabled: nat, running: nat, read: GroupRead, counts: seq<nat>)
    requires |was| == |read.values| == |counts|
    requires forall j :: 0 <= j < |was| ==> IsCount(user, was, enabled, running, read, j, counts[j])
    ensures Grows(was, enabled, running, read)
    ensures was != [] ==> counts == Counts(user, was, enabled, running, read)
  {
    hide Reported;
    forall i | 0 <= i < |was|
      ensures Advances(was[i], enabled, running, read, i)
    {
      assert IsCount(user, was, enabled, running, read, i, counts[i]);
    }
  }

  lemma PrefixStep(values: seq<nat>, was: seq<nat>, i: nat)
    requires i < |values| == |was|
    ensures values[..i] + was[i..] == (values[..i] + was[i..])[i := was[i]]
    ensures (values[..i] + was[i..])[i := values[i]] == values[..i + 1] + was[i + 1..]
  {
  }

  predicate Advances(was: nat, enabled: nat, running: nat, read: GroupRead, i: nat)
    requires i < |read.values|
  {
    read.values[i] >= was && read.enabled >= enabled && read.running >= running
  }

  /** Nothing went backwards since the last read. */
  ghost predicate Grows(was: seq<nat>, enabled: nat, running: nat, read: GroupRead)
    requires |was| == |read.values|
  {
    forall i :: 0 <= i < |was| ==> Advances(was[i], enabled, running, read, i)
  }

  function Counts(user: bool, was: seq<nat>, enabled: nat, running: nat, read: GroupRead): seq<nat>
    requires |was| == |read.values| && was != [] && Grows(was, enabled, running, read)
  {
    assert Advances(was[0], enabled, running, read, 0);
    seq(|was|, i requires 0 <= i < |was| =>
      assert Advances(was[i], enabled, running, read, i);
      Reported(user, read.values[i] - was[i], read.enabled - enabled, read.running - running))
  }

  /** Two growths scaled by one ratio and rounded down: the reports keep their order and their proportion, up to what
      rounding takes away. */
  lemma RoundedProportion(x: nat, y: nat, a: nat, b: nat, ratio: real)
    requires ratio >= 0.0 && a == (x as real * ratio).Floor && b == (y as real * ratio).Floor
    ensures x <= y ==> a <= b
    ensures a * y <= b * x + x && b * x <= a * y + y
  {
    if x <= y {
      InOrder(x as real, y as real, ratio);
    }
    Commute(x as real, y as real, ratio);
    Cross(a as real, b as real, x as real, y as real, x as real * ratio, y as real * ratio);
    Cross(b as real, a as real, y as real, x as real, y as real * ratio, x as real * ratio);
    Whole(a, y, b, x);
    Whole(b, x, a, y);
  }

  lemma InOrder(x: real, y: real, ratio: real)
    requires x <= y && ratio >= 0.0
    ensures x * ratio <= y * ratio
  {
  }

  lemma Cross(a: real, b: real, x: real, y: real, p: real, q: real)
    requires a <= p < a + 1.0 && b <= q < b + 1.0 && x >= 0.0 && y >= 0.0 && p * y == q * x
    ensures a * y <= b * x + x
  {
    calc {
      a * y;
    <= { RealProducts(a, p, y); }
      p * y;
    ==
      q * x;
    <= { RealProducts(b, q, x); }
      b * x + x;
    }
  }

  /** From reals back to integers. */
  lemma Whole(a: nat, y: nat, b: nat, x: nat)
    requires a as real * y as real <= b as real * x as real + x as real
    ensures a * y <= b * x + x
  {
    RealProduct(a, y, a * y);
    RealProduct(b, x, b * x);
    Compare(a * y, b * x, x);
  }

  lemma RealProduct(a: nat, y: nat, m: nat)
    requires m == a * y
    ensures m as real == a as real * y as real
  {
  }

  lemma Compare(m: int, n: int, x: int)
    ensures m as real <= n as real + x as real <==> m <= n + x
  {
  }

  lemma RealProducts(a: real, p: real, y: real)
    requires a <= p < a + 1.0 && y >= 0.0
    ensures a * y <= p * y <= a * y + y
  {
    Part(p - a, y);
    assert p * y == a * y + (p - a) * y;
  }

  lemma Part(part: real, y: real)
    requires 0.0 <= part <= 1.0 && y >= 0.0
    ensures 0.0 <= part * y <= y
  {
    assert (1.0 - part) * y >= 0.0;
  }

  lemma Commute(x: real, y: real, ratio: real)
    ensures (x * ratio) * y == (y * ratio) * x
  {
  }

  /** The members of a group read together keep the proportion of their growths. */
  lemma GroupSharesRatio(was: seq<nat>, enabled: nat, running: nat, read: GroupRead, i: nat, j: nat)
    requires |was| == |read.values| && Grows(was, enabled, running, read) && read.running > running
    requires i < |was| && j < |was|
    ensures read.values[i] >= was[i] && read.values[j] >= was[j]
    ensures var counts := Counts(false, was, enabled, running, read);
            var x, y := read.values[i] - was[i], read.values[j] - was[j];
            (x <= y ==> counts[i] <= counts[j])
            && counts[i] * y <= counts[j] * x + x && counts[j] * x <= counts[i] * y + y
  {
    assert Advances(was[i], enabled, running, read, i) && Advances(was[j], enabled, running, read, j);
    var ratio := Ratio(read.enabled - enabled, read.running - running);
    var x, y := read.values[i] - was[i], read.values[j] - was[j];
    IsFloor(x, read.enabled - enabled, read.running - running);
    IsFloor(y, read.enabled - enabled, read.running - running);
    hide Reported;
    var counts := Counts(false, was, enabled, running, read);
    RoundedProportion(x, y, counts[i], counts[j], ratio);
  }

  lemma IsFloor(grown: nat, enabled: nat, running: nat)
    requires running > 0
    ensures Ratio(enabled, running) >= 0.0
    ensures Reported(false, grown, enabled, running) == (grown as real * Ratio(enabled, running)).Floor
  {
  }

  // ----- Runs of successful reads -----

  function Last(run: seq<Sample>): Sample {
    if run == [] then ZERO else run[|run| - 1]
  }

  predicate Follows(a: Sample, b: Sample) {
    b.value >= a.value && b.enabled >= a.enabled && b.running >= a.running
  }

  /** Every read of the run after Enable succeeded. */
  predicate IsRun(run: seq<Sample>) {
    run == [] || (IsRun(run[..|run| - 1]) && Follows(Last(run[..|run| - 1]), Last(run)))
  }

  /** The sum of the reported counts. */
  function Sum(user: bool, run: seq<Sample>): nat
    requires IsRun(run)
  {
    if run == [] then 0
    else
      var init, last := run[..|run| - 1], Last(run);
      var was := Last(init);
      Sum(user, init) + Reported(user, last.value - was.value, last.enabled - was.enabled, last.running - was.running)
  }

  /** The estimate the reports round down. */
  function Estimate(run: seq<Sample>): real
    requires IsRun(run)
  {
    if run == [] then 0.0
    else
      var init, last := run[..|run| - 1], Last(run);
      var was := Last(init);
      Estimate(init)
      + if last.running == was.running then 0.0
        else ((last.value - was.value) * (last.enabled - was.enabled)) as real / (last.running - was.running) as real
  }

  /** Read directly from user space, the counts add up to the counter's value. */
  lemma {:induction false} UserSumIsValue(run: seq<Sample>)
    requires IsRun(run)
    ensures Sum(true, run) == Last(run).value
  {
    if run != [] {
      UserSumIsValue(run[..|run| - 1]);
    }
  }

  /** Running whenever enabled. */
  predicate NotMultiplexed(run: seq<Sample>) {
    forall i :: 0 <= i < |run| ==> run[i].enabled == run[i].running
  }

  /** No read finds the value grown without running time. */
  predicate GrowsWhileRunning(run: seq<Sample>) {
    run == [] || (
      && GrowsWhileRunning(run[..|run| - 1])
      && (Last(run).running == Last(run[..|run| - 1]).running ==> Last(run).value == Last(run[..|run| - 1]).value))
  }

  lemma FullShare(grown: nat, time: nat)
    requires time > 0
    ensures Scaled(grown, time, time) == grown
  {
    assert Ratio(time, time) == 1.0;
  }

  /** Without multiplexing the counts add up to the value exactly when it only grows while the event runs; they
      never add up to more. */
  lemma {:induction false} SumIsValueIff(run: seq<Sample>)
    requires IsRun(run) && NotMultiplexed(run)
    ensures Sum(false, run) <= Last(run).value
    ensures Sum(false, run) == Last(run).value <==> GrowsWhileRunning(run)
  {
    if run != [] {
      var init, last := run[..|run| - 1], Last(run);
      SumIsValueIff(init);
      var time := last.running - Last(init).running;
      if time > 0 {
        FullShare(last.value - Last(init).value, time);
      }
    }
  }

  lemma ScaledBounds(grown: nat, enabled: nat, running: nat)
    requires running > 0
    ensures Scaled(grown, enabled, running) as real <= Exact(grown, enabled, running)
    ensures Exact(grown, enabled, running) < Scaled(grown, enabled, running) as real + 1.0
    ensures grown == 0 ==> Exact(grown, enabled, running) == 0.0
  {
  }

  lemma QuotientIsExact(grown: nat, enabled: nat, running: nat)
    requires running > 0
    ensures (grown * enabled) as real / running as real == Exact(grown, enabled, running)
  {
    ExactIsQuotient(grown, enabled, running);
    Divide(Exact(grown, enabled, running), running as real, (grown * enabled) as real);
  }

  lemma Divide(x: real, t: real, m: real)
    requires t > 0.0 && x * t == m
    ensures m / t == x
  {
  }

  /** With multiplexing the reports stay below the estimate, by less than one for each read. */
  lemma {:induction false} SumIsBelowEstimate(run: seq<Sample>)
    requires IsRun(run)
    ensures Sum(false, run) as real <= Estimate(run)
    ensures run != [] ==> Estimate(run) < Sum(false, run) as real + |run| as real
  {
    if run != [] {
      var init, last := run[..|run| - 1], Last(run);
      var was := Last(init);
      SumIsBelowEstimate(init);
      hide Scaled, Exact;
      if last.running > was.running {
        ScaledBounds(last.value - was.value, last.enabled - was.enabled, last.running - was.running);
        QuotientIsExact(last.value - was.value, last.enabled - was.enabled, last.running - was.running);
      }
    }
  }

  // ----- The counter over a run -----

  /** What the reads say of member `i`. */
  function Member(rs: seq<GroupRead>, i: nat): (run: seq<Sample>)
    requires forall k :: 0 <= k < |rs| ==> i < |rs[k].values|
    ensures |run| == |rs| && forall k :: 0 <= k < |rs| ==>
              run[k] == Sample(rs[k].values[i], rs[k].enabled, rs[k].running)
  {
    seq(|rs|, k requires 0 <= k < |rs| => Sample(rs[k].values[i], rs[k].enabled, rs[k].running))
  }

  /** The counter has seen `rs` and nothing else since it was enabled. */
  ghost predicate HasSeen(c: Counter, rs: seq<GroupRead>, n: nat)
    requires forall k :: 0 <= k < |rs| ==> |rs[k].values| == n
    reads c
  {
    if rs == [] then c.accum == [] && c.enabled == 0 && c.running == 0
    else var r := rs[|rs| - 1]; c.accum == r.values && c.enabled == r.enabled && c.running == r.running
  }

  ghost predicate TotalsAre(user: bool, rs: seq<GroupRead>, n: nat, totals: seq<nat>)
    requires forall k :: 0 <= k < |rs| ==> |rs[k].values| == n
  {
    |totals| == n && forall i :: 0 <= i < n ==> IsRun(Member(rs, i)) && totals[i] == Sum(user, Member(rs, i))
  }

  lemma TotalsStep(user: bool, rs: seq<GroupRead>, n: nat, totals: seq<nat>, was: seq<nat>, enabled: nat, running: nat,
                   r: GroupRead, more: seq<nat>)
    requires (forall k :: 0 <= k < |rs| ==> |rs[k].values| == n) && |r.values| == n == |was| > 0
    requires TotalsAre(user, rs, n, totals)
    requires if rs == [] then was == seq(n, _ => 0) && enabled == 0 && running == 0
             else was == rs[|rs| - 1].values && enabled == rs[|rs| - 1].enabled && running == rs[|rs| - 1].running
    requires Grows(was, enabled, running, r)
    requires |more| == n && forall i :: 0 <= i < n ==> more[i] == totals[i] + Counts(user, was, enabled, running, r)[i]
    ensures TotalsAre(user, rs + [r], n, more)
  {
    forall i | 0 <= i < n
      ensures IsRun(Member(rs + [r], i)) && more[i] == Sum(user, Member(rs + [r], i))
    {
      hide Reported;
      var run, next := Member(rs, i), Member(rs + [r], i);
      assert next[..|next| - 1] == run;
      assert Last(run) == Sample(was[i], enabled, running);
      assert Advances(was[i], enabled, running, r, i);
    }
  }

  /** No member ever goes backwards, and neither do the times. */
  ghost predicate AllRun(rs: seq<GroupRead>, n: nat)
    requires forall k :: 0 <= k < |rs| ==> |rs[k].values| == n
  {
    forall i :: 0 <= i < n ==> IsRun(Member(rs, i))
  }

  lemma {:induction false} PrefixIsRun(run: seq<Sample>, k: nat)
    requires IsRun(run) && k <= |run|
    ensures IsRun(run[..k])
    decreases |run|
  {
    if k < |run| {
      PrefixIsRun(run[..|run| - 1], k);
      assert run[..|run| - 1][..k] == run[..k];
    } else {
      assert run[..k] == run;
    }
  }

  /** A read that fails breaks the run of some member. */
  lemma FailedReadBreaks(rs: seq<GroupRead>, n: nat, k: nat, was: seq<nat>, enabled: nat, running: nat)
    requires (forall j :: 0 <= j < |rs| ==> |rs[j].values| == n) && k < |rs| && |was| == n
    requires if k == 0 then was == seq(n, _ => 0) && enabled == 0 && running == 0
             else was == rs[k - 1].values && enabled == rs[k - 1].enabled && running == rs[k - 1].running
    requires !Grows(was, enabled, running, rs[k])
    ensures !AllRun(rs, n)
  {
    var i :| 0 <= i < n && !Advances(was[i], enabled, running, rs[k], i);
    var run := Member(rs, i);
    assert run[..k + 1][..k] == run[..k];
    assert Last(run[..k]) == Sample(was[i], enabled, running);
    if IsRun(run) {
      PrefixIsRun(run, k + 1);
    }
  }

  /** Enable, then successful reads: the reported counts of each member add up to its sum over the run. */
  method CountRun(c: Counter, rs: seq<GroupRead>, n: nat) returns (ok: bool, totals: seq<nat>)
    requires n > 0 && forall k :: 0 <= k < |rs| ==> |rs[k].values| == n
    modifies c
    ensures ok <==> AllRun(rs, n)
    ensures ok ==> TotalsAre(c.userAccess, rs, n, totals) && HasSeen(c, rs, n)
  {
    c.Enable();
    totals := seq(n, _ => 0);
    for k := 0 to |rs|
      invariant HasSeen(c, rs[..k], n) && TotalsAre(c.userAccess, rs[..k], n, totals)
    {
      hide TotalsAre, Grows;
      ghost var was, e, r := c.Before(n), c.enabled, c.running;
      assert |totals| == n by { SizeOf(c.userAccess, rs[..k], n, totals); }
      var counts;
      ok, counts := c.ReadGroupEvents(rs[k]);
      if !ok {
        FailedReadBreaks(rs, n, k, was, e, r);
        return;
      }
      var more := seq(n, i requires 0 <= i < n => totals[i] + counts[i]);
      TotalsStep(c.userAccess, rs[..k], n, totals, was, e, r, rs[k], more);
      assert rs[..k + 1] == rs[..k] + [rs[k]];
      totals := more;
    }
    assert rs[..|rs|] == rs;
    ok := true;
  }

  lemma SizeOf(user: bool, rs: seq<GroupRead>, n: nat, totals: seq<nat>)
    requires (forall k :: 0 <= k < |rs| ==> |rs[k].values| == n) && TotalsAre(user, rs, n, totals)
    ensures |totals| == n
  {
  }
}
