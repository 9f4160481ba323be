/** AnalyzeTraceData of pmu/pmu_analysis.cpp: cut the data into one stretch per traced function, group
    each stretch by thread, and pair enter with exit events by time. */
module SyscallTrace {
  import opened Words
  import opened Sums
  import opened PairGreedy

  datatype PmuData = PmuData(evt: string, tid: int, ts: int)

  /** A PmuTraceData, with the events it was made from; elapsed is in milliseconds. */
  datatype Item = Item(fun: string, enter: nat, exit: nat, startTs: int, elapsed: real, tid: int)

  const ENTER_PREFIX: string := "syscalls:sys_enter_"
  const EXIT_PREFIX: string := "syscalls:sys_exit_"

  // ----- Event names -----

  /** strstr from position `i` on. */
  function StrStr(s: string, p: string, i: nat): (r: Option<nat>)
    requires i <= |s|
    ensures r.Some? ==> i <= r.value && r.value + |p| <= |s|
    decreases |s| - i
  {
    if i + |p| > |s| then None
    else if s[i..i + |p|] == p then Some(i)
    else if i == |s| then None
    else StrStr(s, p, i + 1)
  }

  ghost predicate Occurs(s: string, p: string, k: nat) { k + |p| <= |s| && s[k..k + |p|] == p }

  /** It finds the first occurrence, and nothing exactly when there is none. */
  lemma {:induction false} StrStrIsFirst(s: string, p: string, i: nat)
    requires i <= |s|
    ensures var r := StrStr(s, p, i);
            && (r.Some? ==> Occurs(s, p, r.value) && forall k :: i <= k < r.value ==> !Occurs(s, p, k))
            && (r.None? <==> forall k :: i <= k ==> !Occurs(s, p, k))
    decreases |s| - i
  {
    if i + |p| <= |s| && !Occurs(s, p, i) {
      StrStrIsFirst(s, p, i + 1);
    }
  }

  predicate NamedAfter(evt: string, prefix: string, fun: string) {
    var r := StrStr(evt, prefix, 0);
    r.Some? && evt[r.value + |prefix|..] == fun
  }

  predicate CheckEventIsFunName(evt: string, fun: string) {
    NamedAfter(evt, ENTER_PREFIX, fun) || NamedAfter(evt, EXIT_PREFIX, fun)
  }

  predicate IsEnter(d: PmuData) { StrStr(d.evt, ENTER_PREFIX, 0).Some? }

  predicate IsExit(d: PmuData) { !IsEnter(d) && StrStr(d.evt, EXIT_PREFIX, 0).Some? }

  /** What the analysis looks at in each event: time, thread, and whether it is an enter or an exit. */
  datatype View = View(ts: seq<int>, tid: seq<int>, enter: seq<bool>, exit: seq<bool>)

  ghost predicate Aligned(v: View) { |v.ts| == |v.tid| == |v.enter| == |v.exit| }

  function ViewOf(data: seq<PmuData>): (v: View)
    ensures Aligned(v) && |v.ts| == |data|
    ensures forall i :: 0 <= i < |data| ==> v.ts[i] == data[i].ts && v.tid[i] == data[i].tid
    ensures forall i :: 0 <= i < |data| ==> v.enter[i] == IsEnter(data[i]) && v.exit[i] == IsExit(data[i])
  {
    View(seq(|data|, i requires 0 <= i < |data| => data[i].ts),
         seq(|data|, i requires 0 <= i < |data| => data[i].tid),
         seq(|data|, i requires 0 <= i < |data| => IsEnter(data[i])),
         seq(|data|, i requires 0 <= i < |data| => IsExit(data[i])))
  }

  // ----- Sorting by time stamp -----

  function Insert(ts: seq<int>, s: seq<nat>, x: nat): seq<nat>
    requires x < |ts| && forall i :: 0 <= i < |s| ==> s[i] < |ts|
  {
    if s == [] then [x]
    else if ts[s[|s| - 1]] <= ts[x] then s + [x]
    else Insert(ts, s[..|s| - 1], x) + [s[|s| - 1]]
  }

  function Sort(ts: seq<int>, s: seq<nat>): (r: seq<nat>)
    requires forall i :: 0 <= i < |s| ==> s[i] < |ts|
    ensures SortedBy(ts, r)
  {
    if s == [] then []
    else
      InsertSorts(ts, Sort(ts, s[..|s| - 1]), s[|s| - 1]);
      Insert(ts, Sort(ts, s[..|s| - 1]), s[|s| - 1])
  }

  /** Sorting keeps the elements and repeats none. */
  lemma {:induction false} SortKeeps(ts: seq<int>, s: seq<nat>)
    requires forall i :: 0 <= i < |s| ==> s[i] < |ts|
    ensures forall y :: y in Sort(ts, s) <==> y in s
    ensures Distinct(s) ==> Distinct(Sort(ts, s))
    decreases |s|
  {
    if s != [] {
      var n := |s| - 1;
      SortKeeps(ts, s[..n]);
      InsertSorts(ts, Sort(ts, s[..n]), s[n]);
      assert s == s[..n] + [s[n]];
      assert Distinct(s) ==> Distinct(s[..n]) && s[n] !in s[..n];
    }
  }

  lemma {:induction false} InsertSorts(ts: seq<int>, s: seq<nat>, x: nat)
    requires SortedBy(ts, s) && x < |ts|
    ensures var r := Insert(ts, s, x);
            && |r| == |s| + 1 && SortedBy(ts, r) && (forall y :: y in r <==> y in s || y == x)
            && (Distinct(s) && x !in s ==> Distinct(r))
    decreases |s|
  {
    if s != [] && ts[s[|s| - 1]] > ts[x] {
      var n := |s| - 1;
      InsertSorts(ts, s[..n], x);
      assert s == s[..n] + [s[n]];
      AppendLast(ts, Insert(ts, s[..n], x), s[..n], x, s[n]);
    }
  }

  lemma AppendLast(ts: seq<int>, r: seq<nat>, s: seq<nat>, x: nat, last: nat)
    requires SortedBy(ts, r) && last < |ts| && x < |ts| && ts[x] <= ts[last] && forall y :: y in r <==> y in s || y == x
    requires SortedBy(ts, s + [last])
    ensures SortedBy(ts, r + [last])
    ensures Distinct(r) && Distinct(s + [last]) && x != last ==> Distinct(r + [last])
  {
    assert forall k :: 0 <= k < |s| ==> (s + [last])[k] == s[k] && (s + [last])[|s|] == last;
    forall k | 0 <= k < |r|
      ensures ts[r[k]] <= ts[last] && (r[k] == last ==> last in s || x == last)
    {
      assert r[k] in r;
      if r[k] in s {
        var j :| 0 <= j < |s| && s[j] == r[k];
      }
    }
  }

  // ----- Stretches and groups -----

  /** The first event at or after `lo` that does not belong to `fun`. */
  function StretchEnd(data: seq<PmuData>, fun: string, lo: nat): (hi: nat)
    requires lo <= |data|
    ensures lo <= hi <= |data|
    ensures forall i :: lo <= i < hi ==> CheckEventIsFunName(data[i].evt, fun)
    decreases |data| - lo
  {
    if lo == |data| || !CheckEventIsFunName(data[lo].evt, fun) then lo else StretchEnd(data, fun, lo + 1)
  }

  /** Events of thread `tid` in lo .. hi-1 with their flag set, in order. */
  function Group(v: View, lo: nat, hi: nat, tid: int, flags: seq<bool>): (g: seq<nat>)
    requires lo <= hi <= |v.tid| == |flags|
    ensures forall i :: 0 <= i < |g| ==> lo <= g[i] < hi
    decreases hi
  {
    if lo == hi then []
    else Group(v, lo, hi - 1, tid, flags) + (if v.tid[hi - 1] == tid && flags[hi - 1] then [hi - 1] else [])
  }

  lemma {:induction false} GroupMembers(v: View, lo: nat, hi: nat, tid: int, flags: seq<bool>)
    requires lo <= hi <= |v.tid| == |flags|
    ensures Distinct(Group(v, lo, hi, tid, flags))
    ensures forall i :: i in Group(v, lo, hi, tid, flags) <==> lo <= i < hi && v.tid[i] == tid && flags[i]
    decreases hi
  {
    if lo < hi { GroupMembers(v, lo, hi - 1, tid, flags); }
  }

  /** The group sorted by time. */
  ghost function Lane(v: View, lo: nat, hi: nat, tid: int, flags: seq<bool>): (g: seq<nat>)
    requires Aligned(v) && lo <= hi <= |v.ts| == |flags|
    ensures SortedBy(v.ts, g)
  {
    Sort(v.ts, Group(v, lo, hi, tid, flags))
  }

  lemma LaneMembers(v: View, lo: nat, hi: nat, tid: int, flags: seq<bool>)
    requires Aligned(v) && lo <= hi <= |v.ts| == |flags|
    ensures Distinct(Lane(v, lo, hi, tid, flags))
    ensures forall i :: i in Lane(v, lo, hi, tid, flags) <==> lo <= i < hi && v.tid[i] == tid && flags[i]
  {
    GroupMembers(v, lo, hi, tid, flags);
    SortKeeps(v.ts, Group(v, lo, hi, tid, flags));
  }

  /** The pairs found for one thread in one stretch. */
  ghost function PairsOf(v: View, lo: nat, hi: nat, tid: int): seq<Pair>
    requires Aligned(v) && lo <= hi <= |v.ts|
  {
    Greedy(v.ts, Lane(v, lo, hi, tid, v.enter), Lane(v, lo, hi, tid, v.exit), 0, 0)
  }

  function Tids(v: View, lo: nat, hi: nat): set<int>
    requires lo <= hi <= |v.tid|
  {
    set i | lo <= i < hi :: v.tid[i]
  }

  /** `p` is an enter and a later exit of the same thread in lo .. hi-1. */
  ghost predicate Matches(v: View, lo: nat, hi: nat, p: Pair)
    requires Aligned(v) && hi <= |v.ts|
  {
    && lo <= p.0 < hi && lo <= p.1 < hi && v.tid[p.0] == v.tid[p.1]
    && v.enter[p.0] && v.exit[p.1] && v.ts[p.0] < v.ts[p.1]
  }

  ghost predicate AllMatch(v: View, lo: nat, hi: nat, tids: set<int>, m: set<Pair>)
    requires Aligned(v) && hi <= |v.ts|
  {
    forall p :: p in m ==> Matches(v, lo, hi, p) && v.tid[p.0] in tids
  }

  ghost function SetOf(pairs: seq<Pair>): set<Pair> { set p | p in pairs }

  lemma PairsOfMatch(v: View, lo: nat, hi: nat, tid: int)
    requires Aligned(v) && lo <= hi <= |v.ts|
    ensures Disjoint(PairsOf(v, lo, hi, tid)) && AllMatch(v, lo, hi, {tid}, SetOf(PairsOf(v, lo, hi, tid)))
  {
    var es, xs := Lane(v, lo, hi, tid, v.enter), Lane(v, lo, hi, tid, v.exit);
    LaneMembers(v, lo, hi, tid, v.enter);
    LaneMembers(v, lo, hi, tid, v.exit);
    GreedyPairs(v.ts, es, xs, 0, 0);
    forall p | p in PairsOf(v, lo, hi, tid)
      ensures Matches(v, lo, hi, p) && v.tid[p.0] == tid
    {
      assert p.0 in es && p.1 in xs;
    }
  }

  // ----- Optimality over all threads and functions -----

  ghost function Counts(v: View, lo: nat, hi: nat, tids: set<int>): map<int, int>
    requires Aligned(v) && lo <= hi <= |v.ts|
  {
    map t | t in tids :: |PairsOf(v, lo, hi, t)|
  }

  lemma ThreadMaximum(v: View, lo: nat, hi: nat, tid: int, m: set<Pair>)
    requires Aligned(v) && lo <= hi <= |v.ts| && Injective(m) && AllMatch(v, lo, hi, {tid}, m)
    ensures |m| <= |PairsOf(v, lo, hi, tid)|
  {
    var es, xs := Lane(v, lo, hi, tid, v.enter), Lane(v, lo, hi, tid, v.exit);
    LaneMembers(v, lo, hi, tid, v.enter);
    LaneMembers(v, lo, hi, tid, v.exit);
    assert es[0..] == es && xs[0..] == xs;
    GreedyIsMaximum(v.ts, es, xs, 0, 0, m);
  }

  /** The pairs of one thread and the others. */
  lemma SplitThread(v: View, lo: nat, hi: nat, tids: set<int>, m: set<Pair>, t: int) returns (mine: set<Pair>)
    requires Aligned(v) && lo <= hi <= |v.ts| && Injective(m) && AllMatch(v, lo, hi, tids, m)
    ensures mine <= m && Injective(mine) && Injective(m - mine) && |m| == |mine| + |m - mine|
    ensures AllMatch(v, lo, hi, {t}, mine) && AllMatch(v, lo, hi, tids - {t}, m - mine)
  {
    mine := set p | p in m && v.tid[p.0] == t;
    SplitSize(m, mine);
  }

  lemma {:induction false} StretchMaximum(v: View, lo: nat, hi: nat, tids: set<int>, m: set<Pair>)
    requires Aligned(v) && lo <= hi <= |v.ts| && Injective(m) && AllMatch(v, lo, hi, tids, m)
    ensures |m| <= Total(Counts(v, lo, hi, tids))
    decreases tids
  {
    if t :| t in tids {
      var mine := SplitThread(v, lo, hi, tids, m, t);
      ThreadMaximum(v, lo, hi, t, mine);
      StretchMaximum(v, lo, hi, tids - {t}, m - mine);
      DropThread(v, lo, hi, tids, t);
    } else {
      assert m == {};
      TotalZero(Counts(v, lo, hi, tids));
    }
  }

  lemma DropThread(v: View, lo: nat, hi: nat, tids: set<int>, t: int)
    requires Aligned(v) && lo <= hi <= |v.ts| && t in tids
    ensures Total(Counts(v, lo, hi, tids)) == |PairsOf(v, lo, hi, t)| + Total(Counts(v, lo, hi, tids - {t}))
  {
    TotalRemove(Counts(v, lo, hi, tids), t);
    assert Counts(v, lo, hi, tids) - {t} == Counts(v, lo, hi, tids - {t});
  }

  lemma SplitSize(m: set<Pair>, a: set<Pair>)
    requires a <= m
    ensures |m| == |a| + |m - a|
  {
    assert m == a + (m - a);
  }

  /** Consecutive stretches `cuts[i] .. cuts[i+1]-1`. */
  ghost predicate AreCuts(v: View, cuts: seq<nat>) {
    && |cuts| > 0 && (forall i :: 0 <= i < |cuts| ==> cuts[i] <= |v.ts|)
    && forall i, j :: 0 <= i <= j < |cuts| ==> cuts[i] <= cuts[j]
  }

  /** A pairing: every pair matches within one stretch, no event is used twice. */
  ghost predicate IsTracePairing(v: View, cuts: seq<nat>, m: set<Pair>)
    requires Aligned(v) && AreCuts(v, cuts)
  {
    Injective(m) && forall p :: p in m ==> InStretch(v, cuts, p)
  }

  ghost predicate InStretch(v: View, cuts: seq<nat>, p: Pair)
    requires Aligned(v) && AreCuts(v, cuts)
  {
    exists i :: 0 <= i < |cuts| - 1 && Matches(v, cuts[i], cuts[i + 1], p)
  }

  /** Number of pairs found in one stretch. */
  ghost function Best(v: View, lo: nat, hi: nat): int
    requires Aligned(v) && lo <= hi <= |v.ts|
  {
    Total(Counts(v, lo, hi, Tids(v, lo, hi)))
  }

  /** Number of pairs found in all stretches from number `i` on. */
  ghost function Found(v: View, cuts: seq<nat>, i: nat): int
    requires Aligned(v) && AreCuts(v, cuts) && i < |cuts|
    decreases |cuts| - i
  {
    if i == |cuts| - 1 then 0
    else Best(v, cuts[i], cuts[i + 1]) + Found(v, cuts, i + 1)
  }

  /** A pair whose enter lies in stretch `i` matches there. */
  lemma StretchOf(v: View, cuts: seq<nat>, i: nat, p: Pair)
    requires Aligned(v) && AreCuts(v, cuts) && i < |cuts| && cuts[i] <= p.0 && InStretch(v, cuts, p)
    ensures i < |cuts| - 1
    ensures p.0 < cuts[i + 1] ==> Matches(v, cuts[i], cuts[i + 1], p)
  {
    var k :| 0 <= k < |cuts| - 1 && Matches(v, cuts[k], cuts[k + 1], p);
    assert forall j :: k + 1 <= j < |cuts| ==> cuts[k + 1] <= cuts[j];
    assert forall j :: 0 <= j <= k ==> cuts[j] <= cuts[k];
  }

  lemma {:induction false} RestMaximum(v: View, cuts: seq<nat>, i: nat, m: set<Pair>)
    requires Aligned(v) && AreCuts(v, cuts) && i < |cuts| && IsTracePairing(v, cuts, m)
    requires forall p :: p in m ==> cuts[i] <= p.0
    ensures |m| <= Found(v, cuts, i)
    decreases |cuts| - i
  {
    if p :| p in m { StretchOf(v, cuts, i, p); }
    if i < |cuts| - 1 {
      var lo, hi := cuts[i], cuts[i + 1];
      var mine := set p | p in m && p.0 < hi;
      forall p | p in mine
        ensures Matches(v, lo, hi, p) && v.tid[p.0] in Tids(v, lo, hi)
      {
        StretchOf(v, cuts, i, p);
      }
      StretchMaximum(v, lo, hi, Tids(v, lo, hi), mine);
      RestMaximum(v, cuts, i + 1, m - mine);
      SplitSize(m, mine);
    } else {
      assert m == {};
    }
  }

  // ----- The analysis -----

  /** The pairs of one thread in one stretch. */
  method PairThread(v: View, lo: nat, hi: nat, tid: int) returns (pairs: seq<Pair>)
    requires Aligned(v) && lo <= hi <= |v.ts| && forall i :: 0 <= i < |v.ts| ==> !(v.enter[i] && v.exit[i])
    ensures pairs == PairsOf(v, lo, hi, tid)
  {
    var enterList, exitList := [], [];
    var j := lo;
    while j < hi
      invariant lo <= j <= hi
      invariant enterList == Group(v, lo, j, tid, v.enter) && exitList == Group(v, lo, j, tid, v.exit)
    {
      if v.tid[j] == tid {
        if v.enter[j] {
          enterList := enterList + [j];
        } else if v.exit[j] {
          exitList := exitList + [j];
        }
      }
      j := j + 1;
    }
    if enterList == [] || exitList == [] {
      return [];
    }
    pairs := PairUp(v.ts, Sort(v.ts, enterList), Sort(v.ts, exitList));
  }

  /** The pairs of one stretch, thread by thread in any order. */
  method PairStretch(v: View, lo: nat, hi: nat) returns (pairs: seq<Pair>)
    requires Aligned(v) && lo <= hi <= |v.ts| && forall i :: 0 <= i < |v.ts| ==> !(v.enter[i] && v.exit[i])
    ensures |pairs| == Best(v, lo, hi) && Disjoint(pairs)
    ensures forall k :: 0 <= k < |pairs| ==> Matches(v, lo, hi, pairs[k])
  {
    hide Matches, PairsOf, Tids;
    pairs := [];
    var todo := Tids(v, lo, hi);
    ghost var tids, all := todo, Total(Counts(v, lo, hi, todo));
    while todo != {}
      invariant todo <= tids && Disjoint(pairs) && AllMatch(v, lo, hi, tids - todo, SetOf(pairs))
      invariant |pairs| == all - Total(Counts(v, lo, hi, todo))
      decreases todo
    {
      var t :| t in todo;
      var more := PairThread(v, lo, hi, t);
      DropThread(v, lo, hi, todo, t);
      ThreadsApart(v, lo, hi, tids - todo, pairs, t);
      assert tids - todo + {t} == tids - (todo - {t});
      pairs, todo := pairs + more, todo - {t};
    }
    TotalZero(Counts(v, lo, hi, {}));
    assert tids - todo == tids;
    EachMatches(v, lo, hi, tids, pairs);
  }

  lemma EachMatches(v: View, lo: nat, hi: nat, tids: set<int>, pairs: seq<Pair>)
    requires Aligned(v) && lo <= hi <= |v.ts| && AllMatch(v, lo, hi, tids, SetOf(pairs))
    ensures forall k :: 0 <= k < |pairs| ==> Matches(v, lo, hi, pairs[k])
  {
    assert forall k :: 0 <= k < |pairs| ==> pairs[k] in SetOf(pairs);
  }

  /** Pairs of different threads share no event. */
  lemma ThreadsApart(v: View, lo: nat, hi: nat, tids: set<int>, pairs: seq<Pair>, t: int)
    requires Aligned(v) && lo <= hi <= |v.ts| && Disjoint(pairs) && AllMatch(v, lo, hi, tids, SetOf(pairs))
    requires t !in tids
    ensures var all := pairs + PairsOf(v, lo, hi, t);
            Disjoint(all) && AllMatch(v, lo, hi, tids + {t}, SetOf(all))
  {
    PairsOfMatch(v, lo, hi, t);
    var more := PairsOf(v, lo, hi, t);
    assert SetOf(pairs + more) == SetOf(pairs) + SetOf(more);
    DisjointConcat(v, lo, hi, tids, pairs, t, more);
  }

  lemma DisjointConcat(v: View, lo: nat, hi: nat, tids: set<int>, a: seq<Pair>, t: int, b: seq<Pair>)
    requires Aligned(v) && lo <= hi <= |v.ts| && t !in tids && Disjoint(a) && Disjoint(b)
    requires AllMatch(v, lo, hi, tids, SetOf(a)) && AllMatch(v, lo, hi, {t}, SetOf(b))
    ensures Disjoint(a + b)
  {
    forall i, j | 0 <= i < |a| && 0 <= j < |b|
      ensures a[i].0 != b[j].0 && a[i].1 != b[j].1
    {
      assert a[i] in SetOf(a) && b[j] in SetOf(b);
    }
  }

  /** CollectPmuTraceData. */
  function Collect(v: View, fun: string, p: Pair): Item
    requires p.0 < |v.ts| == |v.tid| && p.1 < |v.ts|
  {
    Item(fun, p.0, p.1, v.ts[p.0], (v.ts[p.1] - v.ts[p.0]) as real / 1000000.0, v.tid[p.0])
  }

  /** Item `it` is right: an enter and a later exit of `fun`'s stretch, of one thread, with their times. */
  ghost predicate Right(v: View, lo: nat, hi: nat, fun: string, it: Item)
    requires Aligned(v) && hi <= |v.ts|
  {
    Matches(v, lo, hi, (it.enter, it.exit)) && it == Collect(v, fun, (it.enter, it.exit)) && it.elapsed > 0.0
  }

  /** No event is used by two items. */
  ghost predicate UsedOnce(out: seq<Item>) {
    forall i, j :: 0 <= i < j < |out| ==> out[i].enter != out[j].enter && out[i].exit != out[j].exit
  }

  lemma Positive(d: int)
    requires d > 0
    ensures d as real / 1000000.0 > 0.0
  {
  }

  /** The items of one stretch. */
  method AnalyzeStretch(v: View, fun: string, lo: nat, hi: nat) returns (items: seq<Item>)
    requires Aligned(v) && lo <= hi <= |v.ts| && forall i :: 0 <= i < |v.ts| ==> !(v.enter[i] && v.exit[i])
    ensures |items| == Best(v, lo, hi) && UsedOnce(items)
    ensures forall k :: 0 <= k < |items| ==> Right(v, lo, hi, fun, items[k])
  {
    var pairs := PairStretch(v, lo, hi);
    items := CollectAll(v, fun, pairs);
    forall k | 0 <= k < |items|
      ensures Right(v, lo, hi, fun, items[k])
    {
      ItemRight(v, lo, hi, fun, pairs[k]);
    }
  }

  lemma ItemRight(v: View, lo: nat, hi: nat, fun: string, p: Pair)
    requires Aligned(v) && lo <= hi <= |v.ts| && Matches(v, lo, hi, p)
    ensures Right(v, lo, hi, fun, Collect(v, fun, p))
  {
    Positive(v.ts[p.1] - v.ts[p.0]);
    assert (p.0, p.1) == p;
  }

  method CollectAll(v: View, fun: string, pairs: seq<Pair>) returns (items: seq<Item>)
    requires Aligned(v) && forall k :: 0 <= k < |pairs| ==> pairs[k].0 < |v.ts| && pairs[k].1 < |v.ts|
    ensures |items| == |pairs| && forall k :: 0 <= k < |items| ==> items[k] == Collect(v, fun, pairs[k])
  {
    items := [];
    for k := 0 to |pairs|
      invariant |items| == k && forall i :: 0 <= i < k ==> items[i] == Collect(v, fun, pairs[i])
    {
      items := items + [Collect(v, fun, pairs[k])];
    }
  }

  ghost predicate SomeRight(v: View, cuts: seq<nat>, funs: seq<string>, it: Item)
    requires Aligned(v) && AreCuts(v, cuts) && |cuts| == |funs| + 1
  {
    exists i :: 0 <= i < |funs| && Right(v, cuts[i], cuts[i + 1], funs[i], it)
  }

  /** The cuts are where the source stops collecting events of each function. */
  ghost predicate CutsFollow(data: seq<PmuData>, funs: seq<string>, cuts: seq<nat>) {
    && |cuts| == |funs| + 1 && cuts[0] == 0
    && forall i :: 0 <= i < |funs| ==> cuts[i] <= |data| && cuts[i + 1] == StretchEnd(data, funs[i], cuts[i])
  }

  /** Items before position `mid` and items of a stretch from `mid` on share no event. */
  lemma StretchesApart(v: View, lo: nat, hi: nat, fun: string, out: seq<Item>, items: seq<Item>)
    requires Aligned(v) && hi <= |v.ts| && UsedOnce(out) && UsedOnce(items)
    requires forall k :: 0 <= k < |out| ==> out[k].enter < lo && out[k].exit < lo
    requires forall k :: 0 <= k < |items| ==> Right(v, lo, hi, fun, items[k])
    ensures UsedOnce(out + items)
    ensures forall k :: 0 <= k < |items| ==> items[k].enter < hi && items[k].exit < hi
  {
    forall k | 0 <= k < |items|
      ensures lo <= items[k].enter < hi && lo <= items[k].exit < hi
    {
      assert Right(v, lo, hi, fun, items[k]);
    }
  }

  /** The loop of AnalyzeTraceData. */
  method AnalyzeFunctions(data: seq<PmuData>, v: View, funs: seq<string>, ghost cuts: seq<nat>) returns (out: seq<Item>)
    requires Aligned(v) && |v.ts| == |data| && forall i :: 0 <= i < |v.ts| ==> !(v.enter[i] && v.exit[i])
    requires AreCuts(v, cuts) && CutsFollow(data, funs, cuts)
    ensures UsedOnce(out) && |out| == Found(v, cuts, 0)
    ensures forall k :: 0 <= k < |out| ==> SomeRight(v, cuts, funs, out[k])
  {
    hide Right, StretchEnd, Best;
    out := [];
    var i, oriLen := 0, 0;
    while i < |funs|
      invariant 0 <= i <= |funs| && oriLen == cuts[i] && UsedOnce(out)
      invariant |out| == Found(v, cuts, 0) - Found(v, cuts, i)
      invariant forall k :: 0 <= k < |out| ==> out[k].enter < oriLen && out[k].exit < oriLen
      invariant forall k :: 0 <= k < |out| ==> SomeRight(v, cuts, funs, out[k])
    {
      var next := SkipFunction(data, funs[i], oriLen);
      var items := AnalyzeStretch(v, funs[i], oriLen, next);
      StretchesApart(v, oriLen, next, funs[i], out, items);
      assert forall k :: 0 <= k < |items| ==> SomeRight(v, cuts, funs, items[k]);
      out, i, oriLen := out + items, i + 1, next;
    }
  }

  /** The inner loop that collects the events of one function. */
  method SkipFunction(data: seq<PmuData>, fun: string, lo: nat) returns (hi: nat)
    requires lo <= |data|
    ensures hi == StretchEnd(data, fun, lo)
  {
    hi := lo;
    while hi < |data| && CheckEventIsFunName(data[hi].evt, fun)
      invariant lo <= hi <= |data| && StretchEnd(data, fun, lo) == StretchEnd(data, fun, hi)
    {
      hi := hi + 1;
    }
  }

  /** Where the stretch of function number `i` begins. */
  function Start(data: seq<PmuData>, funs: seq<string>, i: nat): (lo: nat)
    requires i <= |funs|
    ensures lo <= |data|
  {
    if i == 0 then 0 else StretchEnd(data, funs[i - 1], Start(data, funs, i - 1))
  }

  lemma {:induction false} StartMonotone(data: seq<PmuData>, funs: seq<string>, i: nat, j: nat)
    requires i <= j <= |funs|
    ensures Start(data, funs, i) <= Start(data, funs, j)
    decreases j
  {
    hide CheckEventIsFunName;
    if i < j { StartMonotone(data, funs, i, j - 1); }
  }

  ghost function Cuts(data: seq<PmuData>, funs: seq<string>): (cuts: seq<nat>)
    ensures CutsFollow(data, funs, cuts)
  {
    seq(|funs| + 1, i requires 0 <= i <= |funs| => Start(data, funs, i))
  }

  lemma CutsAreCuts(data: seq<PmuData>, v: View, funs: seq<string>)
    requires |v.ts| == |data|
    ensures AreCuts(v, Cuts(data, funs))
  {
    forall i, j | 0 <= i <= j <= |funs|
      ensures Cuts(data, funs)[i] <= Cuts(data, funs)[j]
    {
      StartMonotone(data, funs, i, j);
    }
  }

  lemma FoundIsMaximum(v: View, cuts: seq<nat>)
    requires Aligned(v) && AreCuts(v, cuts)
    ensures forall m :: IsTracePairing(v, cuts, m) ==> |m| <= Found(v, cuts, 0)
  {
    forall m: set<Pair> | IsTracePairing(v, cuts, m)
      ensures |m| <= Found(v, cuts, 0)
    {
      forall p: Pair | p in m
        ensures cuts[0] <= p.0
      {
        var i :| 0 <= i < |cuts| - 1 && Matches(v, cuts[i], cuts[i + 1], p);
      }
      RestMaximum(v, cuts, 0, m);
    }
  }
}
