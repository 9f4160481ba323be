/** The two-index loop of pmu/pmu_analysis.cpp that pairs the enter events of one thread and system call
    with its exit events, and the variant of it used for raw system calls. Events are indices into the
    caller's array; `ts` gives their time stamps. */
module PairGreedy {
  import opened Words

  type Pair = (nat, nat)

  ghost predicate SortedBy(ts: seq<int>, s: seq<nat>) {
    && (forall i :: 0 <= i < |s| ==> s[i] < |ts|)
    && (forall i, j :: 0 <= i < j < |s| ==> ts[s[i]] <= ts[s[j]])
  }

  /** The pairs the loop collects from positions `a` of the enters and `b` of the exits. */
  ghost function Greedy(ts: seq<int>, es: seq<nat>, xs: seq<nat>, a: nat, b: nat): seq<Pair>
    requires SortedBy(ts, es) && SortedBy(ts, xs)
    decreases |xs| - b
  {
    if a >= |es| || b >= |xs| then []
    else if ts[es[a]] < ts[xs[b]] then [(es[a], xs[b])] + Greedy(ts, es, xs, a + 1, b + 1)
    else Greedy(ts, es, xs, a, b + 1)
  }

  lemma GreedyDone(ts: seq<int>, es: seq<nat>, xs: seq<nat>, a: nat, b: nat)
    requires SortedBy(ts, es) && SortedBy(ts, xs)
    ensures a >= |es| || b >= |xs| ==> Greedy(ts, es, xs, a, b) == []
  {
  }

  lemma GreedyStep(ts: seq<int>, es: seq<nat>, xs: seq<nat>, a: nat, b: nat)
    requires SortedBy(ts, es) && SortedBy(ts, xs) && a < |es| && b < |xs|
    ensures Greedy(ts, es, xs, a, b) ==
            if ts[es[a]] < ts[xs[b]] then [(es[a], xs[b])] + Greedy(ts, es, xs, a + 1, b + 1)
            else Greedy(ts, es, xs, a, b + 1)
  {
  }

  /** `pairs` are collected and the pairs from positions `a` and `b` on are still to come. */
  ghost predicate SoFar(ts: seq<int>, es: seq<nat>, xs: seq<nat>, a: nat, b: nat, pairs: seq<Pair>)
    requires SortedBy(ts, es) && SortedBy(ts, xs)
  {
    Greedy(ts, es, xs, 0, 0) == pairs + Greedy(ts, es, xs, a, b)
  }

  lemma NothingSoFar(ts: seq<int>, es: seq<nat>, xs: seq<nat>)
    requires SortedBy(ts, es) && SortedBy(ts, xs)
    ensures SoFar(ts, es, xs, 0, 0, [])
  {
    hide Greedy;
    assert [] + Greedy(ts, es, xs, 0, 0) == Greedy(ts, es, xs, 0, 0);
  }

  lemma OneMore(ts: seq<int>, es: seq<nat>, xs: seq<nat>, a: nat, b: nat, pairs: seq<Pair>)
    requires SortedBy(ts, es) && SortedBy(ts, xs) && a < |es| && b < |xs| && SoFar(ts, es, xs, a, b, pairs)
    ensures es[a] < |ts| && xs[b] < |ts|
    ensures if ts[es[a]] < ts[xs[b]] then SoFar(ts, es, xs, a + 1, b + 1, pairs + [(es[a], xs[b])])
            else SoFar(ts, es, xs, a, b + 1, pairs)
  {
    GreedyStep(ts, es, xs, a, b);
    hide Greedy;
    if ts[es[a]] < ts[xs[b]] {
      var p, rest := (es[a], xs[b]), Greedy(ts, es, xs, a + 1, b + 1);
      assert pairs + ([p] + rest) == (pairs + [p]) + rest;
    }
  }

  lemma AllSoFar(ts: seq<int>, es: seq<nat>, xs: seq<nat>, a: nat, b: nat, pairs: seq<Pair>)
    requires SortedBy(ts, es) && SortedBy(ts, xs) && (a >= |es| || b >= |xs|) && SoFar(ts, es, xs, a, b, pairs)
    ensures pairs == Greedy(ts, es, xs, 0, 0)
  {
    GreedyDone(ts, es, xs, a, b);
    hide Greedy;
    assert pairs + [] == pairs;
  }

  method PairUp(ts: seq<int>, es: seq<nat>, xs: seq<nat>) returns (pairs: seq<Pair>)
    requires SortedBy(ts, es) && SortedBy(ts, xs)
    ensures pairs == Greedy(ts, es, xs, 0, 0)
  {
    hide Greedy, SoFar;
    pairs := [];
    var enter, exit := 0, 0;
    NothingSoFar(ts, es, xs);
    while enter < |es| && exit < |xs|
      invariant enter <= |es| && exit <= |xs| && SoFar(ts, es, xs, enter, exit, pairs)
    {
      OneMore(ts, es, xs, enter, exit, pairs);
      if ts[es[enter]] < ts[xs[exit]] {
        pairs := pairs + [(es[enter], xs[exit])];
        enter, exit := enter + 1, exit + 1;
      } else {
        exit := exit + 1;
      }
    }
    AllSoFar(ts, es, xs, enter, exit, pairs);
  }

  // ----- Each event at most once -----

  /** No enter and no exit is used twice. */
  ghost predicate Disjoint(pairs: seq<Pair>) {
    forall i, j :: 0 <= i < j < |pairs| ==> pairs[i].0 != pairs[j].0 && pairs[i].1 != pairs[j].1
  }

  lemma {:induction false} GreedyPairs(ts: seq<int>, es: seq<nat>, xs: seq<nat>, a: nat, b: nat)
    requires SortedBy(ts, es) && SortedBy(ts, xs) && Distinct(es) && Distinct(xs)
    ensures forall p :: p in Greedy(ts, es, xs, a, b) ==>
              p.0 < |ts| && p.1 < |ts| && ts[p.0] < ts[p.1]
              && (exists i :: a <= i < |es| && es[i] == p.0) && (exists j :: b <= j < |xs| && xs[j] == p.1)
    ensures Disjoint(Greedy(ts, es, xs, a, b))
    decreases |xs| - b
  {
    if a < |es| && b < |xs| {
      if ts[es[a]] < ts[xs[b]] {
        GreedyPairs(ts, es, xs, a + 1, b + 1);
        GreedyCons(es, xs, a, b, Greedy(ts, es, xs, a + 1, b + 1));
      } else {
        GreedyPairs(ts, es, xs, a, b + 1);
      }
    }
  }

  lemma GreedyCons(es: seq<nat>, xs: seq<nat>, a: nat, b: nat, rest: seq<Pair>)
    requires a < |es| && b < |xs| && Distinct(es) && Distinct(xs) && Disjoint(rest)
    requires forall p :: p in rest ==>
               (exists i :: a + 1 <= i < |es| && es[i] == p.0) && (exists j :: b + 1 <= j < |xs| && xs[j] == p.1)
    ensures Disjoint([(es[a], xs[b])] + rest)
  {
    forall k | 0 <= k < |rest|
      ensures rest[k].0 != es[a] && rest[k].1 != xs[b]
    {
      assert rest[k] in rest;
    }
  }

  // ----- No pairing is larger -----

  ghost predicate Injective(m: set<Pair>) {
    forall p, q :: p in m && q in m && (p.0 == q.0 || p.1 == q.1) ==> p == q
  }

  /** `m` pairs enters from position `a` on with later exits from position `b` on, each at most once. */
  ghost predicate IsPairing(ts: seq<int>, es: seq<nat>, xs: seq<nat>, a: nat, b: nat, m: set<Pair>) {
    && a <= |es| && b <= |xs| && Injective(m)
    && forall p :: p in m ==> p.0 in es[a..] && p.1 in xs[b..] && p.0 < |ts| && p.1 < |ts| && ts[p.0] < ts[p.1]
  }

  /** `m` pairs enters in `es` with later exits in `xs`. */
  ghost predicate Within(ts: seq<int>, m: set<Pair>, es: set<nat>, xs: set<nat>) {
    forall p :: p in m ==> p.0 in es && p.1 in xs && p.0 < |ts| && p.1 < |ts| && ts[p.0] < ts[p.1]
  }

  /** The partners of the earliest enter and of the earliest exit may be paired with each other instead. */
  lemma Swap(ts: seq<int>, m: set<Pair>, p: Pair, q: Pair, es: set<nat>, xs: set<nat>) returns (n: set<Pair>)
    requires Injective(m) && Within(ts, m, es, xs) && p in m && q in m && p != q && ts[q.1] <= ts[p.1]
    ensures Injective(n) && Within(ts, n, es - {p.0}, xs - {q.1}) && |m| == |n| + 1
  {
    var rest, swapped := m - {p} - {q}, (q.0, p.1);
    n := rest + {swapped};
    SwapInjective(m, p, q, rest, swapped);
    SwapWithin(ts, m, p, q, es, xs, rest, swapped);
    hide Injective, Within;
    assert |rest| == |m| - 2;
  }

  lemma SwapWithin(ts: seq<int>, m: set<Pair>, p: Pair, q: Pair, es: set<nat>, xs: set<nat>, rest: set<Pair>,
                   swapped: Pair)
    requires Injective(m) && Within(ts, m, es, xs) && p in m && q in m && p != q && ts[q.1] <= ts[p.1]
    requires rest == m - {p} - {q} && swapped == (q.0, p.1)
    requires forall r :: r in rest ==> r.0 != p.0 && r.1 != q.1
    ensures Within(ts, rest + {swapped}, es - {p.0}, xs - {q.1})
  {
  }

  lemma SwapInjective(m: set<Pair>, p: Pair, q: Pair, rest: set<Pair>, swapped: Pair)
    requires Injective(m) && p in m && q in m && p != q && rest == m - {p} - {q} && swapped == (q.0, p.1)
    ensures Injective(rest + {swapped}) && swapped !in rest
    ensures forall r :: r in rest ==> r.0 != p.0 && r.1 != q.1
  {
    forall r | r in rest
      ensures r.0 != p.0 && r.1 != p.1 && r.0 != q.0 && r.1 != q.1
    {
    }
  }

  /** Any pairing can give up its use of enter `e` and exit `x` at the cost of one pair, when all its
      exits are at or after `x`. */
  lemma Exchange(ts: seq<int>, m: set<Pair>, e: nat, x: nat, es: set<nat>, xs: set<nat>) returns (n: set<Pair>)
    requires Injective(m) && Within(ts, m, es, xs) && x < |ts| && forall p :: p in m ==> ts[x] <= ts[p.1]
    ensures Injective(n) && Within(ts, n, es - {e}, xs - {x}) && |m| <= |n| + 1
  {
    if p :| p in m && p.0 == e {
      if q :| q in m && q.1 == x && q != p {
        n := Swap(ts, m, p, q, es, xs);
      } else {
        n := m - {p};
      }
    } else if q :| q in m && q.1 == x {
      n := m - {q};
    } else {
      n := m;
    }
  }

  /** Every pair of a pairing uses an enter no earlier than the next one and an exit no earlier than the next one. */
  lemma PairsAfter(ts: seq<int>, es: seq<nat>, xs: seq<nat>, a: nat, b: nat, m: set<Pair>)
    requires SortedBy(ts, es) && SortedBy(ts, xs) && IsPairing(ts, es, xs, a, b, m) && a < |es| && b < |xs|
    ensures forall p :: p in m ==> ts[es[a]] <= ts[p.0] && ts[xs[b]] <= ts[p.1]
  {
    forall p | p in m
      ensures ts[es[a]] <= ts[p.0] && ts[xs[b]] <= ts[p.1]
    {
      var i :| 0 <= i < |es[a..]| && es[a..][i] == p.0;
      var j :| 0 <= j < |xs[b..]| && xs[b..][j] == p.1;
      assert es[a + i] == p.0 && xs[b + j] == p.1;
    }
  }

  lemma NothingLeft(ts: seq<int>, es: seq<nat>, xs: seq<nat>, a: nat, b: nat, m: set<Pair>)
    requires IsPairing(ts, es, xs, a, b, m) && (a >= |es| || b >= |xs|)
    ensures |m| == 0
  {
    var none: set<Pair> := {};
    assert forall p :: p in m <==> p in none;
    assert m == none;
  }

  /** Without the next enter and the next exit. */
  lemma Exchanged(ts: seq<int>, es: seq<nat>, xs: seq<nat>, a: nat, b: nat, m: set<Pair>) returns (n: set<Pair>)
    requires SortedBy(ts, es) && SortedBy(ts, xs) && IsPairing(ts, es, xs, a, b, m) && a < |es| && b < |xs|
    ensures IsPairing(ts, es, xs, a + 1, b + 1, n) && |m| <= |n| + 1
  {
    PairsAfter(ts, es, xs, a, b, m);
    n := Exchange(ts, m, es[a], xs[b], set i | i in es[a..], set j | j in xs[b..]);
    assert es[a..] == [es[a]] + es[a + 1..] && xs[b..] == [xs[b]] + xs[b + 1..];
  }

  /** An exit no later than every enter left is in no pair. */
  lemma ExitUnused(ts: seq<int>, es: seq<nat>, xs: seq<nat>, a: nat, b: nat, m: set<Pair>)
    requires SortedBy(ts, es) && SortedBy(ts, xs) && IsPairing(ts, es, xs, a, b, m) && a < |es| && b < |xs|
    requires ts[es[a]] >= ts[xs[b]]
    ensures IsPairing(ts, es, xs, a, b + 1, m)
  {
    PairsAfter(ts, es, xs, a, b, m);
    assert xs[b..] == [xs[b]] + xs[b + 1..];
  }

  /** No pairing has more pairs than the loop collects. */
  lemma {:induction false} GreedyIsMaximum(ts: seq<int>, es: seq<nat>, xs: seq<nat>, a: nat, b: nat, m: set<Pair>)
    requires SortedBy(ts, es) && SortedBy(ts, xs) && IsPairing(ts, es, xs, a, b, m)
    ensures |m| <= |Greedy(ts, es, xs, a, b)|
    decreases |xs| - b
  {
    if a >= |es| || b >= |xs| {
      NothingLeft(ts, es, xs, a, b, m);
    } else if ts[es[a]] < ts[xs[b]] {
      var n := Exchanged(ts, es, xs, a, b, m);
      hide IsPairing;
      GreedyIsMaximum(ts, es, xs, a + 1, b + 1, n);
    } else {
      ExitUnused(ts, es, xs, a, b, m);
      hide IsPairing;
      GreedyIsMaximum(ts, es, xs, a, b + 1, m);
    }
  }

  // ----- The raw loop, whose guard tests the enter list twice -----

  datatype RawResult = Collected(pairs: seq<Pair>) | OutOfRange

  /** The raw loop; `OutOfRange` marks the read past the end of the exit list. */
  method PairUpRaw(ts: seq<int>, es: seq<nat>, xs: seq<nat>) returns (r: RawResult)
    requires SortedBy(ts, es) && SortedBy(ts, xs)
    ensures r.OutOfRange? <==> 0 < |xs| < |es|
    ensures xs == [] ==> r == Collected([])
    ensures |xs| >= |es| ==> SortedBy(ts, xs[..|es|]) && r == Collected(Greedy(ts, es, xs[..|es|], 0, 0))
    ensures |xs| == |es| ==> r == Collected(Greedy(ts, es, xs, 0, 0))
  {
    assert |xs| == |es| ==> xs[..|es|] == xs;
    if es == [] || xs == [] {
      return Collected([]);
    }
    r := RawLoop(ts, es, xs, if |xs| >= |es| then xs[..|es|] else xs);
  }

  /** The loop itself; `seen` are the exits it looks at. */
  method RawLoop(ts: seq<int>, es: seq<nat>, xs: seq<nat>, ghost seen: seq<nat>) returns (r: RawResult)
    requires SortedBy(ts, es) && SortedBy(ts, seen) && seen <= xs
    requires |seen| == if |xs| >= |es| then |es| else |xs|
    requires (forall i :: 0 <= i < |es| ==> es[i] < |ts|) && forall i :: 0 <= i < |xs| ==> xs[i] < |ts|
    ensures r.OutOfRange? <==> |xs| < |es|
    ensures |xs| >= |es| ==> r == Collected(Greedy(ts, es, seen, 0, 0))
  {
    hide Greedy, SortedBy, SoFar;
    var pairs: seq<Pair> := [];
    var enter, exit := 0, 0;
    NothingSoFar(ts, es, seen);
    while enter < |es| && exit < |es|
      invariant enter <= exit <= |seen| && enter <= |es| && SoFar(ts, es, seen, enter, exit, pairs)
      decreases |es| - exit
    {
      if exit >= |xs| { return OutOfRange; }
      assert seen[exit] == xs[exit];
      OneMore(ts, es, seen, enter, exit, pairs);
      if ts[es[enter]] < ts[xs[exit]] {
        pairs := pairs + [(es[enter], xs[exit])];
        enter, exit := enter + 1, exit + 1;
      } else {
        exit := exit + 1;
      }
    }
    AllSoFar(ts, es, seen, enter, exit, pairs);
    return Collected(pairs);
  }

  // ----- How many pairs there are, read off the timestamps -----

  /** The exits from position `b` on that come after time `t`. */
  function Later(ts: seq<int>, xs: seq<nat>, b: nat, t: int): (n: nat)
    requires forall i :: 0 <= i < |xs| ==> xs[i] < |ts|
    ensures b <= |xs| ==> n <= |xs| - b
    decreases |xs| - b
  {
    if b >= |xs| then 0
    else (if ts[xs[b]] > t then 1 else 0) + Later(ts, xs, b + 1, t)
  }

  /** A bound on every pairing: the enters from `a` up to `i`, and the exits that can still close one from `i` on. */
  function Bound(ts: seq<int>, es: seq<nat>, xs: seq<nat>, a: nat, b: nat, i: nat): nat
    requires SortedBy(ts, es) && SortedBy(ts, xs) && a <= i <= |es|
  {
    i - a + if i < |es| then Later(ts, xs, b, ts[es[i]]) else 0
  }

  /** The smallest bound over the positions from `i` on. */
  function LeastBound(ts: seq<int>, es: seq<nat>, xs: seq<nat>, i: nat): (n: nat)
    requires SortedBy(ts, es) && SortedBy(ts, xs) && i <= |es|
    ensures forall j :: i <= j <= |es| ==> n <= Bound(ts, es, xs, 0, 0, j)
    ensures exists j :: i <= j <= |es| && n == Bound(ts, es, xs, 0, 0, j)
    decreases |es| - i
  {
    var here := Bound(ts, es, xs, 0, 0, i);
    if i == |es| then here
    else var rest := LeastBound(ts, es, xs, i + 1); if here <= rest then here else rest
  }

  /** Once one exit is late enough, so are all that follow. */
  lemma {:induction false} AllLater(ts: seq<int>, xs: seq<nat>, b: nat, t: int)
    requires SortedBy(ts, xs) && b < |xs| && ts[xs[b]] > t
    ensures Later(ts, xs, b, t) == |xs| - b
    decreases |xs| - b
  {
    if b + 1 < |xs| {
      AllLater(ts, xs, b + 1, t);
    }
  }

  /** The size of the greedy pairing is one of the bounds and below all of them. */
  lemma {:induction false} GreedyIsLeast(ts: seq<int>, es: seq<nat>, xs: seq<nat>, a: nat, b: nat) returns (i: nat)
    requires SortedBy(ts, es) && SortedBy(ts, xs) && a <= |es| && b <= |xs|
    ensures a <= i <= |es| && |Greedy(ts, es, xs, a, b)| == Bound(ts, es, xs, a, b, i)
    ensures forall j :: a <= j <= |es| ==> |Greedy(ts, es, xs, a, b)| <= Bound(ts, es, xs, a, b, j)
    decreases |xs| - b
  {
    hide Greedy;
    if a == |es| || b == |xs| {
      GreedyDone(ts, es, xs, a, b);
      i := a;
    } else if ts[es[a]] < ts[xs[b]] {
      GreedyStep(ts, es, xs, a, b);
      i := GreedyIsLeast(ts, es, xs, a + 1, b + 1);
      i := TakenPair(ts, es, xs, a, b, a + 1, b + 1, |Greedy(ts, es, xs, a + 1, b + 1)|, i);
    } else {
      GreedyStep(ts, es, xs, a, b);
      i := GreedyIsLeast(ts, es, xs, a, b + 1);
      forall j | a <= j <= |es|
        ensures Bound(ts, es, xs, a, b, j) == Bound(ts, es, xs, a, b + 1, j)
      {
      }
    }
  }

  /** Taking a pair lowers the least bound by one. */
  lemma TakenPair(ts: seq<int>, es: seq<nat>, xs: seq<nat>, a: nat, b: nat, c: nat, d: nat,
                  n: nat, k: nat) returns (i: nat)
    requires SortedBy(ts, es) && SortedBy(ts, xs) && a < |es| && b < |xs| && ts[es[a]] < ts[xs[b]]
    requires c == a + 1 && d == b + 1
    requires c <= k <= |es| && n == Bound(ts, es, xs, c, d, k)
    requires forall j :: c <= j <= |es| ==> n <= Bound(ts, es, xs, c, d, j)
    ensures a <= i <= |es| && n + 1 == Bound(ts, es, xs, a, b, i)
    ensures forall j :: a <= j <= |es| ==> n + 1 <= Bound(ts, es, xs, a, b, j)
  {
    AllLater(ts, xs, b, ts[es[a]]);
    assert n <= Bound(ts, es, xs, c, d, c);
    forall j | a <= j <= |es|
      ensures n + 1 <= Bound(ts, es, xs, a, b, j)
    {
      if a < j < |es| {
        assert n <= Bound(ts, es, xs, c, d, j);
        if ts[es[j]] < ts[xs[b]] { AllLater(ts, xs, b, ts[es[j]]); }
      } else if a < j {
        assert n <= Bound(ts, es, xs, c, d, j);
      }
    }
    if k < |es| && ts[es[k]] < ts[xs[b]] {
      AllLater(ts, xs, b, ts[es[k]]);
      i := a;
    } else {
      i := k;
    }
  }

  /** The size of the greedy pairing, and so of the largest one, from the timestamps alone. */
  lemma MostPairs(ts: seq<int>, es: seq<nat>, xs: seq<nat>)
    requires SortedBy(ts, es) && SortedBy(ts, xs)
    ensures |Greedy(ts, es, xs, 0, 0)| == LeastBound(ts, es, xs, 0)
  {
    hide Greedy, Bound;
    var i := GreedyIsLeast(ts, es, xs, 0, 0);
    var least := LeastBound(ts, es, xs, 0);
    var j :| 0 <= j <= |es| && least == Bound(ts, es, xs, 0, 0, j);
  }

  /** With enough exits the raw loop misses pairs exactly when the exits it leaves out raise the least bound. */
  lemma RawMissesIff(ts: seq<int>, es: seq<nat>, xs: seq<nat>)
    requires SortedBy(ts, es) && SortedBy(ts, xs) && |es| <= |xs|
    ensures SortedBy(ts, xs[..|es|])
    ensures |Greedy(ts, es, xs, 0, 0)| > |Greedy(ts, es, xs[..|es|], 0, 0)|
            <==> LeastBound(ts, es, xs, 0) > LeastBound(ts, es, xs[..|es|], 0)
  {
    hide Greedy, LeastBound;
    MostPairs(ts, es, xs);
    MostPairs(ts, es, xs[..|es|]);
  }

  /** With more exits than enters it can miss a pair: a stale exit hides the one that matches. */
  lemma RawMissesPair()
    ensures var ts, es, xs := [5, 1, 6], [0], [1, 2];
            && SortedBy(ts, es) && SortedBy(ts, xs) && SortedBy(ts, xs[..|es|])
            && Greedy(ts, es, xs[..|es|], 0, 0) == [] && Greedy(ts, es, xs, 0, 0) == [(0, 2)]
  {
    var ts, es, xs := [5, 1, 6], [0], [1, 2];
    assert xs[..|es|] == [1];
    assert Greedy(ts, es, xs, 1, 2) == [];
    assert Greedy(ts, es, xs, 0, 1) == [(0, 2)] + Greedy(ts, es, xs, 1, 2);
  }
}
