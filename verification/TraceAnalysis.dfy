/** AnalyzeTraceData of pmu/pmu_analysis.cpp against all pairings of its data, not only those inside the stretches
    it cuts. */
module TraceAnalysis {
  import opened Words
  import opened Sums
  import opened PairGreedy
  import opened SyscallTrace

  // ----- Pairings inside the stretches -----

  /** A pairing inside the stretches of `data`. */
  ghost predicate Pairing(data: seq<PmuData>, funs: seq<string>, m: set<Pair>) {
    CutsAreCuts(data, ViewOf(data), funs);
    IsTracePairing(ViewOf(data), Cuts(data, funs), m)
  }

  ghost predicate RightItem(data: seq<PmuData>, funs: seq<string>, it: Item) {
    CutsAreCuts(data, ViewOf(data), funs);
    SomeRight(ViewOf(data), Cuts(data, funs), funs, it)
  }

  /** What a right item says about the events themselves: names, threads and times. */
  lemma RightItemMeans(data: seq<PmuData>, funs: seq<string>, it: Item)
    requires RightItem(data, funs, it)
    ensures it.enter < |data| && it.exit < |data| && it.fun in funs
    ensures CheckEventIsFunName(data[it.enter].evt, it.fun) && CheckEventIsFunName(data[it.exit].evt, it.fun)
    ensures IsEnter(data[it.enter]) && IsExit(data[it.exit]) && data[it.enter].tid == data[it.exit].tid == it.tid
    ensures it.startTs == data[it.enter].ts < data[it.exit].ts
    ensures it.elapsed * 1000000.0 == (data[it.exit].ts - data[it.enter].ts) as real
  {
    var v, cuts := ViewOf(data), Cuts(data, funs);
    CutsAreCuts(data, v, funs);
    var i :| 0 <= i < |funs| && Right(v, cuts[i], cuts[i + 1], funs[i], it);
    assert cuts[i + 1] == StretchEnd(data, funs[i], cuts[i]);
  }

  // ----- Pairings of the whole data -----

  /** `p` is an enter of `fun` and a later exit of `fun`, in the same thread, anywhere in the data. */
  ghost predicate Joins(data: seq<PmuData>, fun: string, p: Pair) {
    && p.0 < |data| && p.1 < |data| && IsEnter(data[p.0]) && IsExit(data[p.1])
    && CheckEventIsFunName(data[p.0].evt, fun) && CheckEventIsFunName(data[p.1].evt, fun)
    && data[p.0].tid == data[p.1].tid && data[p.0].ts < data[p.1].ts
  }

  ghost predicate JoinsFrom(data: seq<PmuData>, funs: seq<string>, i: nat, p: Pair) {
    exists j :: i <= j < |funs| && funs[j] !in funs[..i] && Joins(data, funs[j], p)
  }

  /** Every pair joins an enter and a later exit of one thread and one listed function, and no event is used twice. */
  ghost predicate DataPairing(data: seq<PmuData>, funs: seq<string>, m: set<Pair>) {
    Injective(m) && forall p :: p in m ==> JoinsFrom(data, funs, 0, p)
  }

  /** No event is named after two listed functions. */
  predicate OneNamed(data: seq<PmuData>, funs: seq<string>) {
    forall i, f, g | 0 <= i < |data| && f in funs && g in funs ::
      CheckEventIsFunName(data[i].evt, f) && CheckEventIsFunName(data[i].evt, g) ==> f == g
  }

  /** An event whose name has only one of the two prefixes in it names one function. */
  lemma PlainIsOneNamed(data: seq<PmuData>, funs: seq<string>)
    requires forall i :: 0 <= i < |data| ==>
               StrStr(data[i].evt, ENTER_PREFIX, 0).None? || StrStr(data[i].evt, EXIT_PREFIX, 0).None?
    ensures OneNamed(data, funs)
  {
    hide StrStr;
  }

  /** The events of one function. */
  function Named(data: seq<PmuData>, fun: string): (v: View)
    ensures Aligned(v) && |v.ts| == |data| && v.ts == ViewOf(data).ts && v.tid == ViewOf(data).tid
    ensures forall i :: 0 <= i < |data| ==> v.enter[i] == (IsEnter(data[i]) && CheckEventIsFunName(data[i].evt, fun))
    ensures forall i :: 0 <= i < |data| ==> v.exit[i] == (IsExit(data[i]) && CheckEventIsFunName(data[i].evt, fun))
  {
    View(ViewOf(data).ts, ViewOf(data).tid,
         seq(|data|, i requires 0 <= i < |data| => IsEnter(data[i]) && CheckEventIsFunName(data[i].evt, fun)),
         seq(|data|, i requires 0 <= i < |data| => IsExit(data[i]) && CheckEventIsFunName(data[i].evt, fun)))
  }

  lemma JoinsIsMatch(data: seq<PmuData>, fun: string, p: Pair)
    ensures Joins(data, fun, p) <==> Matches(Named(data, fun), 0, |data|, p)
  {
    hide IsEnter, IsExit, CheckEventIsFunName;
  }

  /** The pairs to be had from all the events of function number `i` and the later ones. */
  ghost function Overall(data: seq<PmuData>, funs: seq<string>, i: nat): int
    requires i <= |funs|
    decreases |funs| - i
  {
    if i == |funs| then 0
    else (if funs[i] in funs[..i] then 0 else Best(Named(data, funs[i]), 0, |data|)) + Overall(data, funs, i + 1)
  }

  /** No pairing has more pairs than that. */
  lemma {:induction false} OverallIsBound(data: seq<PmuData>, funs: seq<string>, i: nat, m: set<Pair>)
    requires i <= |funs| && Injective(m) && forall p :: p in m ==> JoinsFrom(data, funs, i, p)
    ensures |m| <= Overall(data, funs, i)
    decreases |funs| - i
  {
    hide Best, Joins, Named;
    if i == |funs| {
      assert forall p :: p in m ==> JoinsFrom(data, funs, i, p);
      assert m == {};
    } else {
      var mine := set p | p in m && funs[i] !in funs[..i] && Joins(data, funs[i], p);
      forall p | p in m - mine
        ensures JoinsFrom(data, funs, i + 1, p)
      {
        JoinsLater(data, funs, i, p);
      }
      if funs[i] in funs[..i] {
        assert mine == {};
      } else {
        FunctionBound(data, funs[i], mine);
      }
      OverallIsBound(data, funs, i + 1, m - mine);
      SplitSize(m, mine);
    }
  }

  lemma JoinsLater(data: seq<PmuData>, funs: seq<string>, i: nat, p: Pair)
    requires i < |funs| && JoinsFrom(data, funs, i, p) && (funs[i] in funs[..i] || !Joins(data, funs[i], p))
    ensures JoinsFrom(data, funs, i + 1, p)
  {
    hide Joins;
    var j :| i <= j < |funs| && funs[j] !in funs[..i] && Joins(data, funs[j], p);
    assert funs[..i + 1] == funs[..i] + [funs[i]];
  }

  lemma FunctionBound(data: seq<PmuData>, fun: string, m: set<Pair>)
    requires Injective(m) && forall p :: p in m ==> Joins(data, fun, p)
    ensures |m| <= Best(Named(data, fun), 0, |data|)
  {
    hide Joins;
    var v := Named(data, fun);
    forall p | p in m
      ensures Matches(v, 0, |data|, p) && v.tid[p.0] in Tids(v, 0, |data|)
    {
      JoinsIsMatch(data, fun, p);
    }
    StretchMaximum(v, 0, |data|, Tids(v, 0, |data|), m);
  }

  // ----- The bound is reached -----

  lemma {:induction false} DisjointSize(pairs: seq<Pair>)
    requires Disjoint(pairs)
    ensures |SetOf(pairs)| == |pairs| && Injective(SetOf(pairs))
    decreases |pairs|
  {
    if pairs != [] {
      var n := |pairs| - 1;
      DisjointSize(pairs[..n]);
      assert pairs == pairs[..n] + [pairs[n]];
      assert SetOf(pairs) == SetOf(pairs[..n]) + {pairs[n]};
    }
  }

  /** The pairs of all the threads together. */
  lemma {:induction false} ThreadsReach(v: View, lo: nat, hi: nat, tids: set<int>) returns (pairs: seq<Pair>)
    requires Aligned(v) && lo <= hi <= |v.ts|
    ensures Disjoint(pairs) && AllMatch(v, lo, hi, tids, SetOf(pairs)) && |pairs| == Total(Counts(v, lo, hi, tids))
    decreases tids
  {
    hide PairsOf, Matches;
    if t :| t in tids {
      pairs := ThreadsReach(v, lo, hi, tids - {t});
      ThreadsApart(v, lo, hi, tids - {t}, pairs, t);
      DropThread(v, lo, hi, tids, t);
      pairs := pairs + PairsOf(v, lo, hi, t);
      assert tids - {t} + {t} == tids;
    } else {
      pairs := [];
      TotalZero(Counts(v, lo, hi, tids));
    }
  }

  lemma FunctionReach(data: seq<PmuData>, fun: string) returns (m: set<Pair>)
    ensures Injective(m) && |m| == Best(Named(data, fun), 0, |data|) && forall p :: p in m ==> Joins(data, fun, p)
  {
    hide Joins, Named;
    var v := Named(data, fun);
    var pairs := ThreadsReach(v, 0, |data|, Tids(v, 0, |data|));
    m := SetOf(pairs);
    DisjointSize(pairs);
    forall p | p in m
      ensures Joins(data, fun, p)
    {
      JoinsIsMatch(data, fun, p);
    }
  }

  /** A pairing with that many pairs, when no event has two names. */
  lemma {:induction false} OverallIsReached(data: seq<PmuData>, funs: seq<string>, i: nat) returns (m: set<Pair>)
    requires i <= |funs| && OneNamed(data, funs)
    ensures Injective(m) && |m| == Overall(data, funs, i) && forall p :: p in m ==> JoinsFrom(data, funs, i, p)
    decreases |funs| - i
  {
    hide Best, Joins, Named, OneNamed, Injective;
    if i == |funs| {
      m := {};
      NoPairs();
    } else {
      var rest := OverallIsReached(data, funs, i + 1);
      forall p | p in rest
        ensures JoinsFrom(data, funs, i, p)
      {
        JoinsEarlier(data, funs, i, p);
      }
      if funs[i] in funs[..i] {
        m := rest;
      } else {
        var mine := FunctionReach(data, funs[i]);
        FunctionsApart(data, funs, i, mine, rest);
        m := mine + rest;
      }
    }
  }

  lemma NoPairs()
    ensures Injective({})
  {
  }

  lemma JoinsEarlier(data: seq<PmuData>, funs: seq<string>, i: nat, p: Pair)
    requires i < |funs| && JoinsFrom(data, funs, i + 1, p)
    ensures JoinsFrom(data, funs, i, p)
  {
    hide Joins;
    var j :| i + 1 <= j < |funs| && funs[j] !in funs[..i + 1] && Joins(data, funs[j], p);
    assert funs[..i + 1] == funs[..i] + [funs[i]];
  }

  /** Pairs of different functions share no event. */
  lemma FunctionsApart(data: seq<PmuData>, funs: seq<string>, i: nat, mine: set<Pair>, rest: set<Pair>)
    requires i < |funs| && OneNamed(data, funs) && Injective(mine) && Injective(rest) && funs[i] !in funs[..i]
    requires forall p :: p in mine ==> Joins(data, funs[i], p)
    requires forall p :: p in rest ==> JoinsFrom(data, funs, i + 1, p)
    ensures Injective(mine + rest) && |mine + rest| == |mine| + |rest|
    ensures forall p :: p in mine ==> JoinsFrom(data, funs, i, p)
  {
    forall p, q | p in mine && q in rest
      ensures p.0 != q.0 && p.1 != q.1
    {
      NoSharedEvent(data, funs, i, p, q);
    }
    assert mine !! rest;
  }

  lemma NoSharedEvent(data: seq<PmuData>, funs: seq<string>, i: nat, p: Pair, q: Pair)
    requires i < |funs| && OneNamed(data, funs) && Joins(data, funs[i], p) && JoinsFrom(data, funs, i + 1, q)
    ensures p.0 != q.0 && p.1 != q.1
  {
    hide IsEnter, IsExit, CheckEventIsFunName;
    var j :| i + 1 <= j < |funs| && funs[j] !in funs[..i + 1] && Joins(data, funs[j], q);
    assert funs[i] == funs[..i + 1][i];
    assert funs[i] != funs[j] && funs[i] in funs && funs[j] in funs;
  }

  // ----- The analysis against all pairings -----

  /** The pairs inside the stretches. */
  ghost function InStretches(data: seq<PmuData>, funs: seq<string>): int {
    CutsAreCuts(data, ViewOf(data), funs);
    Found(ViewOf(data), Cuts(data, funs), 0)
  }

  ghost function PairSet(out: seq<Item>): set<Pair> {
    set k | 0 <= k < |out| :: (out[k].enter, out[k].exit)
  }

  /** Right items that use no event twice are a pairing of the data. */
  lemma ItemsArePairing(data: seq<PmuData>, funs: seq<string>, out: seq<Item>)
    requires UsedOnce(out) && forall k :: 0 <= k < |out| ==> RightItem(data, funs, out[k])
    ensures DataPairing(data, funs, PairSet(out)) && |PairSet(out)| == |out|
  {
    hide RightItem, Joins;
    var pairs := seq(|out|, k requires 0 <= k < |out| => (out[k].enter, out[k].exit));
    assert PairSet(out) == SetOf(pairs) by {
      assert forall k :: 0 <= k < |out| ==> pairs[k] == (out[k].enter, out[k].exit);
    }
    DisjointSize(pairs);
    forall p | p in PairSet(out)
      ensures JoinsFrom(data, funs, 0, p)
    {
      var k :| 0 <= k < |out| && p == (out[k].enter, out[k].exit);
      ItemJoins(data, funs, out[k]);
    }
  }

  lemma ItemJoins(data: seq<PmuData>, funs: seq<string>, it: Item)
    requires RightItem(data, funs, it)
    ensures JoinsFrom(data, funs, 0, (it.enter, it.exit))
  {
    hide RightItem, IsEnter, IsExit, CheckEventIsFunName;
    RightItemMeans(data, funs, it);
    var j :| 0 <= j < |funs| && funs[j] == it.fun;
    assert funs[..0] == [];
    assert Joins(data, funs[j], (it.enter, it.exit));
  }

  /** AnalyzeTraceData: each event at most once, only same-thread same-function events with enter strictly before exit,
      and as many items as any such pairing inside the stretches; as many as any pairing of the data exactly when the
      stretches lose nothing. */
  method AnalyzeTraceData(data: seq<PmuData>, funs: seq<string>) returns (out: seq<Item>)
    ensures UsedOnce(out) && forall k :: 0 <= k < |out| ==> RightItem(data, funs, out[k])
    ensures |out| == InStretches(data, funs) && forall m :: Pairing(data, funs, m) ==> |m| <= |out|
    ensures DataPairing(data, funs, PairSet(out)) && |PairSet(out)| == |out|
    ensures OneNamed(data, funs) ==>
      ((forall m :: DataPairing(data, funs, m) ==> |m| <= |out|) <==> InStretches(data, funs) == Overall(data, funs, 0))
    ensures OneNamed(data, funs) ==>
      ((forall m :: DataPairing(data, funs, m) ==> |m| <= |out|) <==>
       forall f :: f in funs ==> LosesNothing(data, funs, f))
  {
    hide DataPairing, OneNamed, ViewOf, LosesNothing;
    var v := ViewOf(data);
    CutsAreCuts(data, v, funs);
    EnterOrExit(data);
    out := AnalyzeFunctions(data, v, funs, Cuts(data, funs));
    FoundIsMaximum(v, Cuts(data, funs));
    ItemsArePairing(data, funs, out);
    MaximumIff(data, funs, PairSet(out));
    LostIff(data, funs);
  }

  lemma EnterOrExit(data: seq<PmuData>)
    ensures var v := ViewOf(data); forall i :: 0 <= i < |v.ts| ==> !(v.enter[i] && v.exit[i])
  {
  }

  /** A pairing of the data is a largest one exactly when it has as many pairs as its functions allow. */
  lemma MaximumIff(data: seq<PmuData>, funs: seq<string>, found: set<Pair>)
    requires DataPairing(data, funs, found)
    ensures forall m :: DataPairing(data, funs, m) ==> |m| <= Overall(data, funs, 0)
    ensures OneNamed(data, funs) ==>
      ((forall m :: DataPairing(data, funs, m) ==> |m| <= |found|) <==> |found| == Overall(data, funs, 0))
  {
    hide JoinsFrom, OneNamed, Overall, Injective;
    forall m | DataPairing(data, funs, m)
      ensures |m| <= Overall(data, funs, 0)
    {
      OverallIsBound(data, funs, 0, m);
    }
    if OneNamed(data, funs) {
      var best := OverallIsReached(data, funs, 0);
      assert DataPairing(data, funs, best);
    }
  }

  // ----- Data in list order -----

  /** The stretches cover the data: all events of the first function, then all of the second, and so on. */
  ghost predicate InListOrder(data: seq<PmuData>, funs: seq<string>) {
    Start(data, funs, |funs|) == |data|
  }

  /** Then every pairing of the data is inside the stretches, so the items are a largest one. */
  lemma InOrderIsMaximum(data: seq<PmuData>, funs: seq<string>, m: set<Pair>)
    requires OneNamed(data, funs) && Distinct(funs) && InListOrder(data, funs) && DataPairing(data, funs, m)
    ensures Pairing(data, funs, m)
  {
    var v, cuts := ViewOf(data), Cuts(data, funs);
    CutsAreCuts(data, v, funs);
    forall p | p in m
      ensures InStretch(v, cuts, p)
    {
      PairInStretch(data, funs, p);
    }
  }

  lemma PairInStretch(data: seq<PmuData>, funs: seq<string>, p: Pair)
    requires OneNamed(data, funs) && Distinct(funs) && InListOrder(data, funs) && JoinsFrom(data, funs, 0, p)
    ensures AreCuts(ViewOf(data), Cuts(data, funs)) && InStretch(ViewOf(data), Cuts(data, funs), p)
  {
    hide IsEnter, IsExit, CheckEventIsFunName, StretchEnd;
    var v, cuts := ViewOf(data), Cuts(data, funs);
    CutsAreCuts(data, v, funs);
    var j :| 0 <= j < |funs| && Joins(data, funs[j], p);
    var i := StretchOfEvent(data, funs, |funs|, p.0);
    var k := StretchOfEvent(data, funs, |funs|, p.1);
    assert funs[i] in funs && funs[j] in funs && funs[k] in funs;
    assert i == j == k;
    assert Matches(v, cuts[i], cuts[i + 1], p);
  }

  lemma {:induction false} StretchOfEvent(data: seq<PmuData>, funs: seq<string>, n: nat, e: nat) returns (i: nat)
    requires n <= |funs| && e < Start(data, funs, n)
    ensures i < n && Start(data, funs, i) <= e < Start(data, funs, i + 1) && CheckEventIsFunName(data[e].evt, funs[i])
  {
    hide CheckEventIsFunName;
    if e >= Start(data, funs, n - 1) {
      i := n - 1;
    } else {
      i := StretchOfEvent(data, funs, n - 1, e);
    }
  }

  // ----- What is lost, thread by thread -----

  /** The largest number of pairs for one thread, from the times of its events. */
  ghost function Most(v: View, lo: nat, hi: nat, tid: int): nat
    requires Aligned(v) && lo <= hi <= |v.ts|
  {
    LeastBound(v.ts, Lane(v, lo, hi, tid, v.enter), Lane(v, lo, hi, tid, v.exit), 0)
  }

  lemma MostIsPairs(v: View, lo: nat, hi: nat, tid: int)
    requires Aligned(v) && lo <= hi <= |v.ts|
    ensures Most(v, lo, hi, tid) == |PairsOf(v, lo, hi, tid)|
  {
    MostPairs(v.ts, Lane(v, lo, hi, tid, v.enter), Lane(v, lo, hi, tid, v.exit));
  }

  lemma PairsHaveThread(v: View, lo: nat, hi: nat, tid: int)
    requires Aligned(v) && lo <= hi <= |v.ts|
    ensures PairsOf(v, lo, hi, tid) != [] ==> tid in Tids(v, lo, hi)
  {
    hide PairsOf;
    PairsOfMatch(v, lo, hi, tid);
    if PairsOf(v, lo, hi, tid) != [] {
      var p := PairsOf(v, lo, hi, tid)[0];
      assert p in SetOf(PairsOf(v, lo, hi, tid));
      assert v.tid[p.0] in Tids(v, lo, hi);
    }
  }

  /** Threads without events add nothing. */
  lemma {:induction false} MoreThreads(v: View, lo: nat, hi: nat, tids: set<int>)
    requires Aligned(v) && lo <= hi <= |v.ts| && Tids(v, lo, hi) <= tids
    ensures Best(v, lo, hi) == Total(Counts(v, lo, hi, tids))
    decreases tids
  {
    hide PairsOf;
    if t :| t in tids && t !in Tids(v, lo, hi) {
      PairsHaveThread(v, lo, hi, t);
      DropThread(v, lo, hi, tids, t);
      MoreThreads(v, lo, hi, tids - {t});
    } else {
      assert forall t :: t in tids ==> t in Tids(v, lo, hi);
      assert tids == Tids(v, lo, hi);
    }
  }

  /** The pairs of one thread in the stretches of `fun`, from stretch number `i` on. */
  ghost function Spread(data: seq<PmuData>, funs: seq<string>, fun: string, tid: int, i: nat): nat
    requires i <= |funs|
    decreases |funs| - i
  {
    if i == |funs| then 0
    else
      StartMonotone(data, funs, i, i + 1);
      (if funs[i] == fun then Most(ViewOf(data), Start(data, funs, i), Start(data, funs, i + 1), tid) else 0)
      + Spread(data, funs, fun, tid, i + 1)
  }

  /** No thread has more pairs of `fun` in the whole data than in the stretches of `fun`. */
  ghost predicate LosesNothing(data: seq<PmuData>, funs: seq<string>, fun: string) {
    forall t :: Spread(data, funs, fun, t, 0) == Most(Named(data, fun), 0, |data|, t)
  }

  /** The pairs of stretch `i` are pairs of its function. */
  lemma StretchPairs(data: seq<PmuData>, funs: seq<string>, tid: int, i: nat)
    requires i < |funs|
    ensures Start(data, funs, i) <= Start(data, funs, i + 1)
    ensures var pairs := PairsOf(ViewOf(data), Start(data, funs, i), Start(data, funs, i + 1), tid);
            && Disjoint(pairs) && AllMatch(Named(data, funs[i]), 0, |data|, {tid}, SetOf(pairs))
            && forall k :: 0 <= k < |pairs| ==>
                 Start(data, funs, i) <= pairs[k].0 < Start(data, funs, i + 1)
                 && Start(data, funs, i) <= pairs[k].1 < Start(data, funs, i + 1)
  {
    hide IsEnter, IsExit, CheckEventIsFunName, PairsOf;
    var v, lo, hi := ViewOf(data), Start(data, funs, i), Start(data, funs, i + 1);
    assert hi == StretchEnd(data, funs[i], lo);
    var pairs := PairsOf(v, lo, hi, tid);
    PairsOfMatch(v, lo, hi, tid);
    forall k | 0 <= k < |pairs|
      ensures Matches(v, lo, hi, pairs[k])
    {
      assert pairs[k] in SetOf(pairs);
    }
  }

  /** The pairs of all stretches of `fun` from number `i` on, for one thread. */
  lemma {:induction false} SpreadPairs(data: seq<PmuData>, funs: seq<string>, fun: string, tid: int, i: nat)
    returns (pairs: seq<Pair>)
    requires i <= |funs|
    ensures |pairs| == Spread(data, funs, fun, tid, i) && Disjoint(pairs)
    ensures AllMatch(Named(data, fun), 0, |data|, {tid}, SetOf(pairs))
    ensures forall k :: 0 <= k < |pairs| ==> Start(data, funs, i) <= pairs[k].0 && Start(data, funs, i) <= pairs[k].1
    decreases |funs| - i
  {
    hide Start, ViewOf, Named, PairsOf, Most, Matches;
    if i == |funs| {
      pairs := [];
    } else {
      pairs := SpreadPairs(data, funs, fun, tid, i + 1);
      StretchPairs(data, funs, tid, i);
      if funs[i] == fun {
        var here := PairsOf(ViewOf(data), Start(data, funs, i), Start(data, funs, i + 1), tid);
        MostIsPairs(ViewOf(data), Start(data, funs, i), Start(data, funs, i + 1), tid);
        assert SetOf(here + pairs) == SetOf(here) + SetOf(pairs);
        pairs := here + pairs;
      }
    }
  }

  lemma SpreadBelow(data: seq<PmuData>, funs: seq<string>, fun: string, tid: int)
    ensures Spread(data, funs, fun, tid, 0) <= Most(Named(data, fun), 0, |data|, tid)
  {
    hide Spread, Most, Named, AllMatch;
    var pairs := SpreadPairs(data, funs, fun, tid, 0);
    DisjointSize(pairs);
    ThreadMaximum(Named(data, fun), 0, |data|, tid, SetOf(pairs));
    MostIsPairs(Named(data, fun), 0, |data|, tid);
  }

  /** The pairs in the stretches of `fun` from number `i` on. */
  ghost function Of(data: seq<PmuData>, funs: seq<string>, fun: string, i: nat): int
    requires i <= |funs|
    decreases |funs| - i
  {
    if i == |funs| then 0
    else
      StartMonotone(data, funs, i, i + 1);
      (if funs[i] == fun then Best(ViewOf(data), Start(data, funs, i), Start(data, funs, i + 1)) else 0)
      + Of(data, funs, fun, i + 1)
  }

  ghost function SpreadCounts(data: seq<PmuData>, funs: seq<string>, fun: string, i: nat): map<int, int>
    requires i <= |funs|
  {
    map t | t in Tids(ViewOf(data), 0, |data|) :: Spread(data, funs, fun, t, i)
  }

  ghost function MostCounts(v: View, lo: nat, hi: nat, tids: set<int>): map<int, int>
    requires Aligned(v) && lo <= hi <= |v.ts|
  {
    map t | t in tids :: Most(v, lo, hi, t)
  }

  lemma BestIsMost(v: View, lo: nat, hi: nat, tids: set<int>)
    requires Aligned(v) && lo <= hi <= |v.ts| && Tids(v, lo, hi) <= tids
    ensures Best(v, lo, hi) == Total(MostCounts(v, lo, hi, tids))
  {
    hide Most, PairsOf, Best, Total;
    MoreThreads(v, lo, hi, tids);
    forall t | t in tids
      ensures Most(v, lo, hi, t) == |PairsOf(v, lo, hi, t)|
    {
      MostIsPairs(v, lo, hi, t);
    }
    assert MostCounts(v, lo, hi, tids) == Counts(v, lo, hi, tids);
  }

  lemma TidsWithin(v: View, lo: nat, hi: nat)
    requires Aligned(v) && lo <= hi <= |v.ts|
    ensures Tids(v, lo, hi) <= Tids(v, 0, |v.ts|)
  {
  }

  lemma {:induction false} OfIsSpread(data: seq<PmuData>, funs: seq<string>, fun: string, i: nat)
    requires i <= |funs|
    ensures Of(data, funs, fun, i) == Total(SpreadCounts(data, funs, fun, i))
    decreases |funs| - i
  {
    hide Most, Best, Total, ViewOf, Start, Tids;
    if i == |funs| {
      TotalZero(SpreadCounts(data, funs, fun, i));
    } else {
      OfIsSpread(data, funs, fun, i + 1);
      StartMonotone(data, funs, i, i + 1);
      var v, lo, hi := ViewOf(data), Start(data, funs, i), Start(data, funs, i + 1);
      var tids := Tids(v, 0, |data|);
      var rest, all := SpreadCounts(data, funs, fun, i + 1), SpreadCounts(data, funs, fun, i);
      assert rest.Keys == tids == all.Keys;
      if funs[i] == fun {
        TidsWithin(v, lo, hi);
        BestIsMost(v, lo, hi, tids);
        assert MostCounts(v, lo, hi, tids).Keys == tids;
        TotalAdd(MostCounts(v, lo, hi, tids), rest, all);
      } else {
        assert all == rest;
      }
    }
  }

  lemma NoEventsNoPairs(v: View, lo: nat, hi: nat, tid: int)
    requires Aligned(v) && lo <= hi <= |v.ts| && tid !in Tids(v, 0, |v.ts|)
    ensures Most(v, lo, hi, tid) == 0
  {
    hide Most, PairsOf;
    TidsWithin(v, lo, hi);
    PairsHaveThread(v, lo, hi, tid);
    MostIsPairs(v, lo, hi, tid);
  }

  /** The stretches of a function hold at most the pairs the whole data have for it, and all of them exactly when no
      thread loses one. */
  lemma FunctionBelow(data: seq<PmuData>, funs: seq<string>, fun: string)
    ensures Of(data, funs, fun, 0) <= Best(Named(data, fun), 0, |data|)
    ensures Of(data, funs, fun, 0) == Best(Named(data, fun), 0, |data|) <==> LosesNothing(data, funs, fun)
  {
    hide Most, Best, Total, Spread, Of, ViewOf, Named, Tids;
    var w, tids := Named(data, fun), Tids(ViewOf(data), 0, |data|);
    SameTids(data, fun);
    OfIsSpread(data, funs, fun, 0);
    BestIsMost(w, 0, |data|, tids);
    var spread, most := SpreadCounts(data, funs, fun, 0), MostCounts(w, 0, |data|, tids);
    assert spread.Keys == tids == most.Keys;
    forall t: int
      ensures Spread(data, funs, fun, t, 0) <= Most(w, 0, |data|, t)
      ensures t !in tids ==> Spread(data, funs, fun, t, 0) == Most(w, 0, |data|, t)
    {
      SpreadBelow(data, funs, fun, t);
      if t !in tids {
        NoEventsNoPairs(w, 0, |data|, t);
      }
    }
    TotalCompare(spread, most);
  }

  lemma SameTids(data: seq<PmuData>, fun: string)
    ensures Tids(Named(data, fun), 0, |data|) == Tids(ViewOf(data), 0, |data|)
  {
  }

  // ----- Stretch by stretch and function by function -----

  /** The pairs in stretches from number `j` on whose function is not among the first `i`. */
  ghost function New(data: seq<PmuData>, funs: seq<string>, i: nat, j: nat): int
    requires i <= |funs| && j <= |funs|
    decreases |funs| - j
  {
    if j == |funs| then 0
    else
      StartMonotone(data, funs, j, j + 1);
      (if funs[j] in funs[..i] then 0 else Best(ViewOf(data), Start(data, funs, j), Start(data, funs, j + 1)))
      + New(data, funs, i, j + 1)
  }

  lemma {:induction false} NewSplits(data: seq<PmuData>, funs: seq<string>, i: nat, j: nat)
    requires i < |funs| && j <= |funs|
    ensures New(data, funs, i, j)
         == (if funs[i] in funs[..i] then 0 else Of(data, funs, funs[i], j)) + New(data, funs, i + 1, j)
    decreases |funs| - j
  {
    hide Best, Start, ViewOf;
    if j < |funs| {
      NewSplits(data, funs, i, j + 1);
      assert funs[..i + 1] == funs[..i] + [funs[i]];
    }
  }

  lemma {:induction false} NewIsFound(data: seq<PmuData>, funs: seq<string>, j: nat)
    requires j <= |funs|
    ensures AreCuts(ViewOf(data), Cuts(data, funs))
    ensures New(data, funs, 0, j) == Found(ViewOf(data), Cuts(data, funs), j)
    decreases |funs| - j
  {
    CutsAreCuts(data, ViewOf(data), funs);
    hide Best, ViewOf, StretchEnd;
    if j < |funs| { NewIsFound(data, funs, j + 1); }
  }

  lemma {:induction false} NothingNew(data: seq<PmuData>, funs: seq<string>, j: nat)
    requires j <= |funs|
    ensures New(data, funs, |funs|, j) == 0
    decreases |funs| - j
  {
    hide Best, Start, ViewOf;
    if j < |funs| {
      NothingNew(data, funs, j + 1);
      assert funs[..|funs|] == funs && funs[j] in funs;
    }
  }

  /** No function that is listed from number `i` on, and not before, loses a pair. */
  ghost predicate NoneLoses(data: seq<PmuData>, funs: seq<string>, i: nat)
    requires i <= |funs|
  {
    forall f :: f in funs[i..] && f !in funs[..i] ==> LosesNothing(data, funs, f)
  }

  lemma NoneLosesNext(data: seq<PmuData>, funs: seq<string>, i: nat)
    requires i < |funs|
    ensures NoneLoses(data, funs, i)
       <==> (funs[i] in funs[..i] || LosesNothing(data, funs, funs[i])) && NoneLoses(data, funs, i + 1)
  {
    hide LosesNothing;
    assert funs[i..] == [funs[i]] + funs[i + 1..] && funs[..i + 1] == funs[..i] + [funs[i]];
  }

  lemma {:induction false} LostFrom(data: seq<PmuData>, funs: seq<string>, i: nat)
    requires i <= |funs|
    ensures New(data, funs, i, 0) <= Overall(data, funs, i)
    ensures New(data, funs, i, 0) == Overall(data, funs, i) <==> NoneLoses(data, funs, i)
    decreases |funs| - i
  {
    hide New, Of, Best, LosesNothing, NoneLoses, Named;
    if i == |funs| {
      NothingNew(data, funs, 0);
      NoneIsLeft(data, funs);
    } else {
      LostFrom(data, funs, i + 1);
      NewSplits(data, funs, i, 0);
      FunctionBelow(data, funs, funs[i]);
      NoneLosesNext(data, funs, i);
    }
  }

  lemma NoneIsLeft(data: seq<PmuData>, funs: seq<string>)
    ensures NoneLoses(data, funs, |funs|)
  {
  }

  /** The stretches hold as many pairs as the whole data exactly when no thread has more pairs of a function in the
      whole data than in the stretches of that function. */
  lemma LostIff(data: seq<PmuData>, funs: seq<string>)
    ensures InStretches(data, funs) == Overall(data, funs, 0) <==> forall f :: f in funs ==> LosesNothing(data, funs, f)
  {
    hide LosesNothing, New, Overall;
    NewIsFound(data, funs, 0);
    LostFrom(data, funs, 0);
    assert funs[0..] == funs && funs[..0] == [];
  }

  // ----- Names of system calls -----

  predicate Occurs(s: string, p: string, k: nat) { k + |p| <= |s| && s[k..k + |p|] == p }

  lemma {:induction false} NotFound(s: string, p: string, i: nat)
    requires i <= |s| && forall k :: i <= k ==> !Occurs(s, p, k)
    ensures StrStr(s, p, i) == None
    decreases |s| - i
  {
    assert !Occurs(s, p, i);
    if i < |s| { NotFound(s, p, i + 1); }
  }

  /** The only colon of an event name is the one after the group. */
  lemma OnlyColon(rest: string, name: string, j: nat)
    requires ':' !in rest && ':' !in name && j < |"syscalls:" + rest + name|
    ensures ("syscalls:" + rest + name)[j] == ':' <==> j == 8
  {
    var group := "syscalls";
    assert ':' !in group && |group| == 8 && "syscalls:" == group + ":";
    var s := "syscalls:" + rest + name;
    if j < 8 {
      assert s[j] == group[j] && group[j] in group;
    } else if 8 < j < 9 + |rest| {
      assert s[j] == rest[j - 9] && rest[j - 9] in rest;
    } else if 9 + |rest| <= j {
      assert s[j] == name[j - 9 - |rest|] && name[j - 9 - |rest|] in name;
    }
  }

  lemma Prefixes()
    ensures ENTER_PREFIX == "syscalls:" + "sys_enter_" && ':' !in "sys_enter_" && |ENTER_PREFIX| == 19
    ensures EXIT_PREFIX == "syscalls:" + "sys_exit_" && ':' !in "sys_exit_" && |EXIT_PREFIX| == 18
    ensures ENTER_PREFIX[8] == EXIT_PREFIX[8] == ':' && ENTER_PREFIX[14] == 'n' && EXIT_PREFIX[14] == 'x'
  {
  }

  lemma OtherPrefix(rest: string, name: string, p: string)
    requires ':' !in rest && ':' !in name && |p| > 14 && p[8] == ':' && |rest| > 5 && rest[5] != p[14]
    ensures StrStr("syscalls:" + rest + name, p, 0) == None
  {
    var s := "syscalls:" + rest + name;
    forall k: nat
      ensures !Occurs(s, p, k)
    {
      if k + |p| <= |s| {
        assert s[k..k + |p|][8] == s[k + 8] && s[k..k + |p|][14] == s[k + 14];
        OnlyColon(rest, name, k + 8);
      }
    }
    NotFound(s, p, 0);
  }

  /** What the event names of a system call without a colon in its name are taken for. */
  lemma EventNames(name: string)
    requires ':' !in name
    ensures StrStr(ENTER_PREFIX + name, ENTER_PREFIX, 0) == Some(0)
    ensures StrStr(EXIT_PREFIX + name, EXIT_PREFIX, 0) == Some(0)
    ensures StrStr(ENTER_PREFIX + name, EXIT_PREFIX, 0) == None && StrStr(EXIT_PREFIX + name, ENTER_PREFIX, 0) == None
    ensures CheckEventIsFunName(ENTER_PREFIX + name, name) && CheckEventIsFunName(EXIT_PREFIX + name, name)
  {
    Prefixes();
    OtherPrefix("sys_enter_", name, EXIT_PREFIX);
    OtherPrefix("sys_exit_", name, ENTER_PREFIX);
    assert (ENTER_PREFIX + name)[0..0 + |ENTER_PREFIX|] == ENTER_PREFIX;
    assert (EXIT_PREFIX + name)[0..0 + |EXIT_PREFIX|] == EXIT_PREFIX;
    assert (ENTER_PREFIX + name)[|ENTER_PREFIX|..] == name && (EXIT_PREFIX + name)[|EXIT_PREFIX|..] == name;
  }

  // ----- Two passes over the functions -----

  /** Enter and exit of `f`, enter and exit of `g`, and the same again, all in one thread. */
  ghost predicate TwoPasses(data: seq<PmuData>, f: string, g: string) {
    && |data| == 8 && f != g && OneNamed(data, [f, g])
    && forall i :: 0 <= i < 8 ==>
         && data[i].tid == data[0].tid && data[i].ts == data[0].ts + i
         && IsEnter(data[i]) == (i % 2 == 0) && IsExit(data[i]) == (i % 2 == 1)
         && CheckEventIsFunName(data[i].evt, if i % 4 < 2 then f else g)
  }

  lemma PassEnds(data: seq<PmuData>, f: string, g: string)
    requires TwoPasses(data, f, g)
    ensures Start(data, [f, g], 0) == 0 && Start(data, [f, g], 1) == 2 && Start(data, [f, g], 2) == 4
  {
    hide IsEnter, IsExit, CheckEventIsFunName;
    var funs := [f, g];
    assert f in funs && g in funs;
    assert StretchEnd(data, f, 0) == StretchEnd(data, f, 1) == StretchEnd(data, f, 2) == 2;
    assert StretchEnd(data, g, 2) == StretchEnd(data, g, 3) == StretchEnd(data, g, 4) == 4;
    assert Start(data, funs, 1) == StretchEnd(data, funs[0], Start(data, funs, 0));
    assert Start(data, funs, 2) == StretchEnd(data, funs[1], Start(data, funs, 1));
  }

  lemma PassJoins(data: seq<PmuData>, f: string, g: string, e: nat)
    requires TwoPasses(data, f, g) && e < 7 && e % 2 == 0
    ensures Joins(data, if e % 4 < 2 then f else g, (e, e + 1)) && JoinsFrom(data, [f, g], 0, (e, e + 1))
  {
    hide IsEnter, IsExit, CheckEventIsFunName;
    var funs := [f, g];
    assert funs[..0] == [];
    assert Joins(data, funs[if e % 4 < 2 then 0 else 1], (e, e + 1));
  }

  /** As a second collection interval leaves the data: the scan stops where the second pass begins, and half of the
      pairs are lost. */
  method SecondPassIsLost(data: seq<PmuData>, f: string, g: string) returns (out: seq<Item>)
    requires TwoPasses(data, f, g)
    ensures |out| == 2 && DataPairing(data, [f, g], {(0, 1), (2, 3), (4, 5), (6, 7)})
  {
    hide *;
    out := AnalyzeTraceData(data, [f, g]);
    FourPairs(data, f, g);
    FirstPassPairs(data, f, g);
    assert |{(0, 1), (2, 3)}| == 2;
    AtMostTwo(data, f, g, out);
  }

  lemma FourPairs(data: seq<PmuData>, f: string, g: string)
    requires TwoPasses(data, f, g)
    ensures DataPairing(data, [f, g], {(0, 1), (2, 3), (4, 5), (6, 7)})
  {
    hide TwoPasses, JoinsFrom, Joins;
    PassJoins(data, f, g, 0);
    PassJoins(data, f, g, 2);
    PassJoins(data, f, g, 4);
    PassJoins(data, f, g, 6);
  }

  lemma FirstPassPairs(data: seq<PmuData>, f: string, g: string)
    requires TwoPasses(data, f, g)
    ensures Pairing(data, [f, g], {(0, 1), (2, 3)})
  {
    hide IsEnter, IsExit, CheckEventIsFunName;
    var v, cuts := ViewOf(data), Cuts(data, [f, g]);
    CutsAreCuts(data, v, [f, g]);
    PassEnds(data, f, g);
    assert Matches(v, cuts[0], cuts[1], (0, 1)) && Matches(v, cuts[1], cuts[2], (2, 3));
  }

  lemma EnterOfFirstPass(data: seq<PmuData>, f: string, g: string, it: Item)
    requires TwoPasses(data, f, g) && RightItem(data, [f, g], it)
    ensures it.enter == 0 || it.enter == 2
  {
    hide IsEnter, IsExit, CheckEventIsFunName;
    var v, cuts := ViewOf(data), Cuts(data, [f, g]);
    CutsAreCuts(data, v, [f, g]);
    PassEnds(data, f, g);
    var i :| 0 <= i < 2 && Right(v, cuts[i], cuts[i + 1], [f, g][i], it);
    assert it.enter < cuts[2] && v.enter[it.enter];
  }

  lemma AtMostTwo(data: seq<PmuData>, f: string, g: string, out: seq<Item>)
    requires TwoPasses(data, f, g) && UsedOnce(out) && forall k :: 0 <= k < |out| ==> RightItem(data, [f, g], out[k])
    ensures |out| <= 2
  {
    hide TwoPasses, RightItem;
    forall k | 0 <= k < |out|
      ensures out[k].enter == 0 || out[k].enter == 2
    {
      EnterOfFirstPass(data, f, g, out[k]);
    }
    OneItemPerEnter(out, {0, 2});
  }

  lemma {:induction false} OneItemPerEnter(out: seq<Item>, enters: set<nat>)
    requires UsedOnce(out) && forall k :: 0 <= k < |out| ==> out[k].enter in enters
    ensures |out| <= |enters|
    decreases |out|
  {
    if out != [] {
      var n := |out| - 1;
      OneItemPerEnter(out[..n], enters - {out[n].enter});
    }
  }

  function Enter(name: string, tid: int, ts: int): PmuData { PmuData(ENTER_PREFIX + name, tid, ts) }

  function Exit(name: string, tid: int, ts: int): PmuData { PmuData(EXIT_PREFIX + name, tid, ts) }

  /** The two passes of any two system calls. */
  lemma TracedTwice(f: string, g: string, tid: int, ts: int)
    requires f != g && ':' !in f && ':' !in g
    ensures TwoPasses([Enter(f, tid, ts), Exit(f, tid, ts + 1), Enter(g, tid, ts + 2), Exit(g, tid, ts + 3),
                       Enter(f, tid, ts + 4), Exit(f, tid, ts + 5), Enter(g, tid, ts + 6), Exit(g, tid, ts + 7)], f, g)
  {
    hide StrStr, CheckEventIsFunName, OneNamed;
    var data := [Enter(f, tid, ts), Exit(f, tid, ts + 1), Enter(g, tid, ts + 2), Exit(g, tid, ts + 3),
                 Enter(f, tid, ts + 4), Exit(f, tid, ts + 5), Enter(g, tid, ts + 6), Exit(g, tid, ts + 7)];
    EventNames(f);
    EventNames(g);
    PlainIsOneNamed(data, [f, g]);
  }
}
