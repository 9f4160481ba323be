/**
  PmuList::Init: opening event lists, some of them in groups. A first pass opens the ungrouped lists and the
  group leaders, a second one the other members, in a group or alone. A list whose open fails because its file
  is missing is dropped; any other failure ends Init.
*/
module GroupInit {
  import opened Words

  /** An event list: its group, -1 for none, and whether its PMU is an uncore one. */
  datatype Evt = Evt(gid: int, uncore: bool)

  datatype Outcome = Opened | Missing | Fatal(err: int)

  /** What opening list number `i` gives, alone or in a group. */
  type Env = (nat, bool) -> Outcome

  const NO_GROUP := -1

  // ----- What Init is meant to do -----

  /** Some list before number `n` belongs to group `g`. */
  predicate Seen(evts: seq<Evt>, g: int, n: nat)
    requires n <= |evts|
  {
    exists j :: 0 <= j < n && evts[j].gid == g
  }

  predicate IsLeader(evts: seq<Evt>, i: nat)
    requires i < |evts|
  {
    evts[i].gid != NO_GROUP && !Seen(evts, evts[i].gid, i)
  }

  predicate IsChild(evts: seq<Evt>, i: nat)
    requires i < |evts|
  {
    evts[i].gid != NO_GROUP && !IsLeader(evts, i)
  }

  /** The other members of group `g` among the first `n` lists, in order. */
  function Children(evts: seq<Evt>, g: int, n: nat): (c: seq<nat>)
    requires n <= |evts|
  {
    if n == 0 then []
    else Children(evts, g, n - 1) + if evts[n - 1].gid == g && IsChild(evts, n - 1) then [n - 1] else []
  }

  lemma {:induction false} ChildrenAre(evts: seq<Evt>, g: int, n: nat)
    requires n <= |evts|
    ensures forall i :: i in Children(evts, g, n) <==> 0 <= i < n && evts[i].gid == g && IsChild(evts, i)
  {
    if n > 0 {
      ChildrenAre(evts, g, n - 1);
    }
  }

  /** A member counts for the group's kind unless it is a leader that did not open. */
  predicate Counts(evts: seq<Evt>, env: Env, i: nat)
    requires i < |evts|
  {
    IsLeader(evts, i) ==> env(i, true) == Opened
  }

  function Flags(evts: seq<Evt>, env: Env, g: int, n: nat): (f: seq<bool>)
    requires n <= |evts|
  {
    if n == 0 then []
    else
      Flags(evts, env, g, n - 1)
      + if evts[n - 1].gid == g && Counts(evts, env, n - 1) then [evts[n - 1].uncore] else []
  }

  /** The leader of group `g` opened. */
  predicate LeaderOpened(evts: seq<Evt>, env: Env, g: int, n: nat)
    requires n <= |evts|
  {
    exists j :: 0 <= j < n && evts[j].gid == g && IsLeader(evts, j) && env(j, true) == Opened
  }

  // ----- The two-bit classification -----

  const INIT := 1
  const ONLY_UNCORE := 3
  const HAS_UNCORE := 2

  /** `state | 2` for an uncore event and `state & 2` for any other, on two-bit states. */
  function Classify(state: nat, uncore: bool): (r: nat)
    requires state < 4
    ensures r < 4
  {
    if uncore then (if state >= 2 then state else state + 2) else if state >= 2 then 2 else 0
  }

  function State(flags: seq<bool>): (r: nat)
    ensures r < 4
  {
    if flags == [] then INIT else Classify(State(flags[..|flags| - 1]), flags[|flags| - 1])
  }

  /** The classification does not depend on the order: only on which kinds occur. */
  lemma {:induction false} StateMeans(flags: seq<bool>)
    ensures State(flags) == INIT <==> flags == []
    ensures State(flags) == ONLY_UNCORE <==> flags != [] && false !in flags
    ensures State(flags) == HAS_UNCORE <==> true in flags && false in flags
    ensures State(flags) == 0 <==> flags != [] && true !in flags
  {
    if flags != [] {
      var init, last := flags[..|flags| - 1], flags[|flags| - 1];
      StateMeans(init);
      assert flags == init + [last];
      assert forall b :: b in flags <==> b in init || b == last;
    }
  }

  /** How list `i` is opened once its group is known: leaders start a group, and a child joins an opened leader
      unless the group mixes uncore and other events. */
  ghost predicate InGroup(evts: seq<Evt>, env: Env, i: nat)
    requires i < |evts|
  {
    && evts[i].gid != NO_GROUP
    && (IsLeader(evts, i) || JoinsLeader(evts, env, evts[i].gid))
  }

  ghost predicate JoinsLeader(evts: seq<Evt>, env: Env, g: int) {
    LeaderOpened(evts, env, g, |evts|) && State(Flags(evts, env, g, |evts|)) != HAS_UNCORE
  }

  ghost function Result(evts: seq<Evt>, env: Env, i: nat): Outcome
    requires i < |evts|
  {
    env(i, InGroup(evts, env, i))
  }

  // ----- The first pass -----

  datatype Group = Group(leader: Option<nat>, children: seq<nat>, state: nat)

  datatype Ctx = Ctx(removed: set<nat>, failed: bool, oneOk: bool, groups: map<int, Group>, hasGroupedChild: set<int>)

  /** Opened in the first pass. */
  predicate First(evts: seq<Evt>, i: nat)
    requires i < |evts|
  {
    !IsChild(evts, i)
  }

  function FirstResult(evts: seq<Evt>, env: Env, i: nat): Outcome
    requires i < |evts|
  {
    env(i, evts[i].gid != NO_GROUP)
  }

  ghost predicate Removed(evts: seq<Evt>, env: Env, n: nat, removed: set<nat>)
    requires n <= |evts|
  {
    && (forall j :: 0 <= j < n && First(evts, j) ==> !FirstResult(evts, env, j).Fatal?)
    && forall j :: j in removed <==> 0 <= j < n && First(evts, j) && FirstResult(evts, env, j) == Missing
  }

  ghost predicate SomeOpened(evts: seq<Evt>, env: Env, n: nat)
    requires n <= |evts|
  {
    exists j :: 0 <= j < n && First(evts, j) && FirstResult(evts, env, j) == Opened
  }

  ghost predicate GroupsScanned(evts: seq<Evt>, env: Env, n: nat, groups: map<int, Group>)
    requires n <= |evts|
  {
    && (forall g :: g in groups <==> g != NO_GROUP && Seen(evts, g, n))
    && forall g :: g in groups ==> GroupScanned(evts, env, n, g, groups[g])
  }

  ghost predicate GroupScanned(evts: seq<Evt>, env: Env, n: nat, g: int, group: Group)
    requires n <= |evts|
  {
    && group.children == Children(evts, g, n)
    && group.state == State(Flags(evts, env, g, n))
    && (group.leader.Some? <==> LeaderOpened(evts, env, g, n))
    && (group.leader.Some? ==> IsLeaderOf(evts, g, group.leader.value))
  }

  predicate IsLeaderOf(evts: seq<Evt>, g: int, i: nat) {
    i < |evts| && evts[i].gid == g && IsLeader(evts, i)
  }

  /** The context after the first pass over `n` lists. */
  ghost predicate Scanned(evts: seq<Evt>, env: Env, n: nat, ctx: Ctx)
    requires n <= |evts|
  {
    && Removed(evts, env, n, ctx.removed) && (ctx.oneOk <==> SomeOpened(evts, env, n))
    && (ctx.failed <==> ctx.removed != {}) && GroupsScanned(evts, env, n, ctx.groups) && ctx.hasGroupedChild == {}
  }

  lemma SeenNext(evts: seq<Evt>, g: int, n: nat)
    requires n < |evts|
    ensures Seen(evts, g, n + 1) <==> Seen(evts, g, n) || evts[n].gid == g
  {
  }

  lemma LeaderNext(evts: seq<Evt>, env: Env, g: int, n: nat)
    requires n < |evts|
    ensures LeaderOpened(evts, env, g, n + 1) <==>
            LeaderOpened(evts, env, g, n) || (IsLeaderOf(evts, g, n) && env(n, true) == Opened)
  {
  }

  lemma SomeNext(evts: seq<Evt>, env: Env, n: nat)
    requires n < |evts|
    ensures SomeOpened(evts, env, n + 1) <==>
            SomeOpened(evts, env, n) || (First(evts, n) && FirstResult(evts, env, n) == Opened)
  {
    if SomeOpened(evts, env, n) {
      var j :| 0 <= j < n && First(evts, j) && FirstResult(evts, env, j) == Opened;
      assert 0 <= j < n + 1;
    }
  }

  lemma {:induction false} NothingYet(evts: seq<Evt>, env: Env, g: int, n: nat)
    requires n <= |evts| && !Seen(evts, g, n)
    ensures Children(evts, g, n) == [] && Flags(evts, env, g, n) == [] && !LeaderOpened(evts, env, g, n)
  {
    if n > 0 {
      SeenNext(evts, g, n - 1);
      NothingYet(evts, env, g, n - 1);
      LeaderNext(evts, env, g, n - 1);
    }
  }

  /** A list of another group leaves the group as it was. */
  lemma GroupSame(evts: seq<Evt>, env: Env, n: nat, g: int, group: Group)
    requires n < |evts| && GroupScanned(evts, env, n, g, group) && evts[n].gid != g
    ensures GroupScanned(evts, env, n + 1, g, group)
  {
    hide State, LeaderOpened;
    LeaderNext(evts, env, g, n);
    assert Children(evts, g, n) + [] == Children(evts, g, n) && Flags(evts, env, g, n) + [] == Flags(evts, env, g, n);
  }

  lemma GroupLed(evts: seq<Evt>, env: Env, n: nat, g: int)
    requires n < |evts| && evts[n].gid == g != NO_GROUP && !Seen(evts, g, n)
    ensures env(n, true) == Opened ==>
              GroupScanned(evts, env, n + 1, g, Group(Some(n), [], Classify(INIT, evts[n].uncore)))
    ensures env(n, true) != Opened ==> GroupScanned(evts, env, n + 1, g, Group(None, [], INIT))
  {
    hide LeaderOpened;
    NothingYet(evts, env, g, n);
    LeaderNext(evts, env, g, n);
    assert State([]) == INIT && [evts[n].uncore][..0] == [];
  }

  lemma GroupJoined(evts: seq<Evt>, env: Env, n: nat, g: int, group: Group)
    requires n < |evts| && GroupScanned(evts, env, n, g, group) && evts[n].gid == g != NO_GROUP && Seen(evts, g, n)
    ensures GroupScanned(evts, env, n + 1, g, group.(children := group.children + [n],
                                                     state := Classify(group.state, evts[n].uncore)))
  {
    hide LeaderOpened;
    LeaderNext(evts, env, g, n);
    var flags := Flags(evts, env, g, n);
    assert (flags + [evts[n].uncore])[..|flags|] == flags;
  }

  lemma GroupsNext(evts: seq<Evt>, env: Env, n: nat, groups: map<int, Group>, group: Group)
    requires n < |evts| && GroupsScanned(evts, env, n, groups) && evts[n].gid != NO_GROUP
    requires GroupScanned(evts, env, n + 1, evts[n].gid, group)
    ensures GroupsScanned(evts, env, n + 1, groups[evts[n].gid := group])
  {
    hide GroupScanned, Seen;
    var after := groups[evts[n].gid := group];
    forall g
      ensures g in after <==> g != NO_GROUP && Seen(evts, g, n + 1)
    {
      SeenNext(evts, g, n);
    }
    forall g | g in groups && g != evts[n].gid
      ensures GroupScanned(evts, env, n + 1, g, groups[g])
    {
      GroupSame(evts, env, n, g, groups[g]);
    }
  }

  lemma GroupsAlone(evts: seq<Evt>, env: Env, n: nat, groups: map<int, Group>)
    requires n < |evts| && GroupsScanned(evts, env, n, groups) && evts[n].gid == NO_GROUP
    ensures GroupsScanned(evts, env, n + 1, groups)
  {
    hide GroupScanned, Seen;
    forall g
      ensures g in groups <==> g != NO_GROUP && Seen(evts, g, n + 1)
    {
      SeenNext(evts, g, n);
    }
    forall g | g in groups
      ensures GroupScanned(evts, env, n + 1, g, groups[g])
    {
      GroupSame(evts, env, n, g, groups[g]);
    }
  }

  lemma RemovedNext(evts: seq<Evt>, env: Env, n: nat, removed: set<nat>)
    requires n < |evts| && Removed(evts, env, n, removed)
    ensures IsChild(evts, n) ==> Removed(evts, env, n + 1, removed)
    ensures !IsChild(evts, n) && FirstResult(evts, env, n) == Missing ==> Removed(evts, env, n + 1, removed + {n})
    ensures !IsChild(evts, n) && FirstResult(evts, env, n) == Opened ==> Removed(evts, env, n + 1, removed)
  {
  }

  /** One list of the first pass. */
  method ScanOne(evts: seq<Evt>, env: Env, i: nat, was: Ctx) returns (err: Option<int>, ctx: Ctx)
    requires i < |evts| && Scanned(evts, env, i, was)
    ensures err.None? ==> Scanned(evts, env, i + 1, ctx)
    ensures err.Some? ==> Result(evts, env, i) == Fatal(err.value)
  {
    hide Removed, SomeOpened, GroupsScanned, GroupScanned, State, Seen, Classify;
    RemovedNext(evts, env, i, was.removed);
    SomeNext(evts, env, i);
    GroupKnown(evts, env, i, was.groups);
    var gid := evts[i].gid;
    ctx := was;
    if gid == NO_GROUP {
      GroupsAlone(evts, env, i, was.groups);
      match env(i, false)
      case Fatal(e) =>
        return Some(e), ctx;
      case Missing =>
        ctx := ctx.(failed := true, removed := ctx.removed + {i});
      case Opened =>
        ctx := ctx.(oneOk := true);
    } else if gid !in ctx.groups {
      GroupLed(evts, env, i, gid);
      match env(i, true)
      case Fatal(e) =>
        return Some(e), ctx;
      case Missing =>
        GroupsNext(evts, env, i, ctx.groups, Group(None, [], INIT));
        ctx := ctx.(failed := true, removed := ctx.removed + {i}, groups := ctx.groups[gid := Group(None, [], INIT)]);
      case Opened =>
        var group := Group(Some(i), [], Classify(INIT, evts[i].uncore));
        GroupsNext(evts, env, i, ctx.groups, group);
        ctx := ctx.(oneOk := true, groups := ctx.groups[gid := group]);
    } else {
      GroupJoined(evts, env, i, gid, ctx.groups[gid]);
      var group := ctx.groups[gid];
      group := group.(children := group.children + [i], state := Classify(group.state, evts[i].uncore));
      GroupsNext(evts, env, i, ctx.groups, group);
      ctx := ctx.(groups := ctx.groups[gid := group]);
    }
    return None, ctx;
  }

  /** InitScanEvtLists. */
  method Scan(evts: seq<Evt>, env: Env) returns (err: Option<int>, ctx: Ctx)
    ensures err.None? ==> Scanned(evts, env, |evts|, ctx)
    ensures err.Some? ==> exists i :: 0 <= i < |evts| && Result(evts, env, i) == Fatal(err.value)
  {
    ctx := Ctx({}, false, false, map[], {});
    for i := 0 to |evts|
      invariant Scanned(evts, env, i, ctx)
    {
      hide Scanned, Result;
      err, ctx := ScanOne(evts, env, i, ctx);
      if err.Some? {
        return;
      }
    }
    return None, ctx;
  }

  lemma GroupKnown(evts: seq<Evt>, env: Env, n: nat, groups: map<int, Group>)
    requires n < |evts| && GroupsScanned(evts, env, n, groups)
    ensures evts[n].gid != NO_GROUP ==> (evts[n].gid in groups <==> Seen(evts, evts[n].gid, n))
    ensures evts[n].gid in groups ==>
              GroupScanned(evts, env, n, evts[n].gid, groups[evts[n].gid]) && groups[evts[n].gid].state < 4
  {
  }

  // ----- The second pass -----

  /** List `i` belongs to one of the groups `done` and is not their leader. */
  ghost predicate ChildOf(evts: seq<Evt>, done: set<int>, i: nat) {
    i < |evts| && IsChild(evts, i) && evts[i].gid in done
  }

  /** The context after the second pass over the groups `done`, from the first pass's `was`. */
  ghost predicate Joined(evts: seq<Evt>, env: Env, done: set<int>, was: Ctx, ctx: Ctx) {
    && ctx.groups == was.groups
    && (forall g :: g in done ==> g in ctx.groups && ctx.groups[g].state != ONLY_UNCORE)
    && (forall i :: ChildOf(evts, done, i) ==> !Result(evts, env, i).Fatal?)
    && (forall i :: i in ctx.removed
                    <==> i in was.removed || (ChildOf(evts, done, i) && Result(evts, env, i) == Missing))
    && (ctx.oneOk <==> was.oneOk || exists i :: ChildOf(evts, done, i) && Result(evts, env, i) == Opened)
    && (ctx.failed <==> ctx.removed != {})
    && (forall g :: g in ctx.hasGroupedChild <==> g in done && HasGroupedChild(evts, env, g))
  }

  /** Some child of `g` was opened in the group. */
  ghost predicate HasGroupedChild(evts: seq<Evt>, env: Env, g: int) {
    JoinsLeader(evts, env, g) && exists i :: ChildOf(evts, {g}, i) && Result(evts, env, i) == Opened
  }

  ghost predicate AnyOpened(r: nat -> Outcome, cs: seq<nat>) {
    exists j :: 0 <= j < |cs| && r(cs[j]) == Opened
  }

  /** The context after the members `cs` of group `gid` were opened with results `r`. */
  ghost predicate JoinedSome(r: nat -> Outcome, joins: bool, gid: int, cs: seq<nat>, was: Ctx, ctx: Ctx) {
    && ctx.groups == was.groups && (ctx.failed <==> ctx.removed != {})
    && (forall j :: 0 <= j < |cs| ==> !r(cs[j]).Fatal?)
    && (forall i :: i in ctx.removed <==> i in was.removed || (i in cs && r(i) == Missing))
    && (ctx.oneOk <==> was.oneOk || AnyOpened(r, cs))
    && ctx.hasGroupedChild == was.hasGroupedChild + if joins && AnyOpened(r, cs) then {gid} else {}
  }

  lemma JoinedMore(r: nat -> Outcome, joins: bool, gid: int, cs: seq<nat>, was: Ctx, ctx: Ctx, c: nat)
    requires JoinedSome(r, joins, gid, cs, was, ctx)
    ensures r(c) == Missing ==>
              JoinedSome(r, joins, gid, cs + [c], was, ctx.(failed := true, removed := ctx.removed + {c}))
    ensures r(c) == Opened && joins ==>
              JoinedSome(r, joins, gid, cs + [c], was,
                         ctx.(hasGroupedChild := ctx.hasGroupedChild + {gid}, oneOk := true))
    ensures r(c) == Opened && !joins ==> JoinedSome(r, joins, gid, cs + [c], was, ctx.(oneOk := true))
  {
    var more := cs + [c];
    assert forall i :: i in more <==> i in cs || i == c;
    assert AnyOpened(r, more) <==> AnyOpened(r, cs) || r(c) == Opened by {
      assert more[|cs|] == c && forall j :: 0 <= j < |cs| ==> more[j] == cs[j];
    }
  }

  /** One group of InitGroupChildren: children join an opened leader, except in a group that has uncore events. */
  method JoinGroup(env: Env, gid: int, group: Group, was: Ctx, ghost r: nat -> Outcome)
    returns (err: Option<int>, ctx: Ctx)
    requires was.failed <==> was.removed != {}
    requires forall j :: 0 <= j < |group.children| ==>
               r(group.children[j]) == env(group.children[j], group.state != HAS_UNCORE && group.leader.Some?)
    ensures err.None? ==>
              JoinedSome(r, group.state != HAS_UNCORE && group.leader.Some?, gid, group.children, was, ctx)
    ensures err.Some? ==> exists j :: 0 <= j < |group.children| && r(group.children[j]) == Fatal(err.value)
  {
    ghost var joins := group.state != HAS_UNCORE && group.leader.Some?;
    ctx := was;
    var cs := group.children;
    assert cs[..0] == [];
    for k := 0 to |cs|
      invariant JoinedSome(r, joins, gid, cs[..k], was, ctx)
    {
      hide JoinedSome;
      JoinedMore(r, joins, gid, cs[..k], was, ctx, cs[k]);
      assert cs[..k + 1] == cs[..k] + [cs[k]];
      var outcome;
      if group.state == HAS_UNCORE {
        outcome := env(cs[k], false);
      } else if group.leader.Some? {
        outcome := env(cs[k], true);
        if outcome == Opened {
          ctx := ctx.(hasGroupedChild := ctx.hasGroupedChild + {gid});
        }
      } else {
        outcome := env(cs[k], false);
      }
      match outcome
      case Fatal(e) =>
        return Some(e), ctx;
      case Missing =>
        ctx := ctx.(failed := true, removed := ctx.removed + {cs[k]});
      case Opened =>
        ctx := ctx.(oneOk := true);
    }
    assert cs[..|cs|] == cs;
    return None, ctx;
  }

  datatype Failure = AllUncore | OpenFailed(err: int) | NothingOpened

  /** Every counted member of the group is an uncore event. */
  ghost predicate OnlyUncore(evts: seq<Evt>, env: Env, g: int) {
    g != NO_GROUP && State(Flags(evts, env, g, |evts|)) == ONLY_UNCORE
  }

  ghost function ResultOf(evts: seq<Evt>, env: Env): nat -> Outcome {
    (i: nat) => if i < |evts| then Result(evts, env, i) else Opened
  }

  lemma GroupFacts(evts: seq<Evt>, env: Env, g: int, group: Group)
    requires g != NO_GROUP && GroupScanned(evts, env, |evts|, g, group)
    ensures JoinsLeader(evts, env, g) <==> group.state != HAS_UNCORE && group.leader.Some?
    ensures OnlyUncore(evts, env, g) <==> group.state == ONLY_UNCORE
    ensures forall i :: i in group.children <==> ChildOf(evts, {g}, i)
    ensures forall i :: ChildOf(evts, {g}, i) ==> Result(evts, env, i) == env(i, JoinsLeader(evts, env, g))
  {
    ChildrenAre(evts, g, |evts|);
  }

  lemma GroupResults(evts: seq<Evt>, env: Env, g: int, group: Group)
    requires g != NO_GROUP && GroupScanned(evts, env, |evts|, g, group)
    ensures forall j :: 0 <= j < |group.children| ==>
              && group.children[j] < |evts|
              && ResultOf(evts, env)(group.children[j]) == Result(evts, env, group.children[j])
                 == env(group.children[j], group.state != HAS_UNCORE && group.leader.Some?)
  {
    GroupFacts(evts, env, g, group);
    hide GroupScanned, JoinsLeader, Result, IsChild;
    forall j | 0 <= j < |group.children|
      ensures ChildOf(evts, {g}, group.children[j])
    {
      assert group.children[j] in group.children;
    }
  }

  lemma JoinedNext(evts: seq<Evt>, env: Env, done: set<int>, was: Ctx, ctx: Ctx, g: int, next: Ctx)
    requires Joined(evts, env, done, was, ctx) && g !in done && g in was.groups && g != NO_GROUP
    requires GroupScanned(evts, env, |evts|, g, was.groups[g]) && was.groups[g].state != ONLY_UNCORE
    requires JoinedSome(ResultOf(evts, env), JoinsLeader(evts, env, g), g, was.groups[g].children, ctx, next)
    ensures Joined(evts, env, done + {g}, was, next)
  {
    var r, cs, more := ResultOf(evts, env), was.groups[g].children, done + {g};
    GroupFacts(evts, env, g, was.groups[g]);
    GroupResults(evts, env, g, was.groups[g]);
    ChildOfMore(evts, done, g);
    OpenedInGroup(evts, env, g, was.groups[g]);
    hide Result, JoinsLeader, GroupScanned, ChildOf, AnyOpened, ResultOf;
    assert forall i :: ChildOf(evts, more, i) <==> ChildOf(evts, done, i) || i in cs;
    assert forall i :: i in cs ==> r(i) == Result(evts, env, i);
  }

  lemma ChildOfMore(evts: seq<Evt>, done: set<int>, g: int)
    ensures forall i :: ChildOf(evts, done + {g}, i) <==> ChildOf(evts, done, i) || ChildOf(evts, {g}, i)
  {
  }

  /** The children that opened, seen as a list and as members of the group. */
  lemma OpenedInGroup(evts: seq<Evt>, env: Env, g: int, group: Group)
    requires g != NO_GROUP && GroupScanned(evts, env, |evts|, g, group)
    ensures AnyOpened(ResultOf(evts, env), group.children)
       <==> exists i :: ChildOf(evts, {g}, i) && Result(evts, env, i) == Opened
  {
    GroupFacts(evts, env, g, group);
    GroupResults(evts, env, g, group);
    var r, cs := ResultOf(evts, env), group.children;
    hide GroupScanned, JoinsLeader, Result, ChildOf, ResultOf;
    if AnyOpened(r, cs) {
      var j :| 0 <= j < |cs| && r(cs[j]) == Opened;
      assert cs[j] in cs;
    }
    if i :| ChildOf(evts, {g}, i) && Result(evts, env, i) == Opened {
      assert i in cs;
    }
  }

  /** What the second pass needs to know of a group. */
  lemma GroupIsReady(evts: seq<Evt>, env: Env, was: Ctx, ctx: Ctx, g: int, done: set<int>)
    requires Scanned(evts, env, |evts|, was) && Joined(evts, env, done, was, ctx) && g in was.groups
    ensures ctx.groups == was.groups && (ctx.failed <==> ctx.removed != {})
    ensures g != NO_GROUP && GroupScanned(evts, env, |evts|, g, was.groups[g])
    ensures was.groups[g].state == ONLY_UNCORE ==> FailsRightly(evts, env, AllUncore)
    ensures JoinsLeader(evts, env, g) <==> was.groups[g].state != HAS_UNCORE && was.groups[g].leader.Some?
  {
    GroupFacts(evts, env, g, was.groups[g]);
    hide Result, JoinsLeader, OnlyUncore, ChildOf, HasGroupedChild, GroupScanned;
    if was.groups[g].state == ONLY_UNCORE { assert OnlyUncore(evts, env, g); }
  }

  lemma FatalIsReal(evts: seq<Evt>, env: Env, g: int, group: Group, e: int)
    requires g != NO_GROUP && GroupScanned(evts, env, |evts|, g, group)
    requires exists j :: 0 <= j < |group.children| && ResultOf(evts, env)(group.children[j]) == Fatal(e)
    ensures FailsRightly(evts, env, OpenFailed(e))
  {
    GroupResults(evts, env, g, group);
    hide Result, GroupScanned, ResultOf, JoinsLeader;
    var j :| 0 <= j < |group.children| && ResultOf(evts, env)(group.children[j]) == Fatal(e);
    assert Result(evts, env, group.children[j]) == Fatal(e);
  }

  /** One group of the second pass. */
  method JoinOne(evts: seq<Evt>, env: Env, was: Ctx, ctx0: Ctx, g: int, ghost done: set<int>)
    returns (err: Option<Failure>, ctx: Ctx)
    requires Scanned(evts, env, |evts|, was) && Joined(evts, env, done, was, ctx0) && g in was.groups && g !in done
    ensures err.None? ==> Joined(evts, env, done + {g}, was, ctx)
    ensures err.Some? ==> FailsRightly(evts, env, err.value)
  {
    GroupIsReady(evts, env, was, ctx0, g, done);
    GroupResults(evts, env, g, was.groups[g]);
    hide *;
    var group := ctx0.groups[g];
    if group.state == ONLY_UNCORE {
      return Some(AllUncore), ctx0;
    }
    ghost var r := ResultOf(evts, env);
    var fatal;
    fatal, ctx := JoinGroup(env, g, group, ctx0, r);
    if fatal.Some? {
      FatalIsReal(evts, env, g, group, fatal.value);
      return Some(OpenFailed(fatal.value)), ctx;
    }
    JoinedNext(evts, env, done, was, ctx0, g, ctx);
    return None, ctx;
  }

  /** The reason of a failure of the second pass is real. */
  ghost predicate FailsRightly(evts: seq<Evt>, env: Env, f: Failure) {
    match f
    case AllUncore => exists g :: OnlyUncore(evts, env, g)
    case OpenFailed(e) => exists i :: 0 <= i < |evts| && Result(evts, env, i) == Fatal(e)
    case NothingOpened => false
  }

  /** InitGroupChildren: the groups in any order. */
  method JoinAll(evts: seq<Evt>, env: Env, was: Ctx) returns (err: Option<Failure>, ctx: Ctx)
    requires Scanned(evts, env, |evts|, was)
    ensures err.None? ==> Joined(evts, env, was.groups.Keys, was, ctx)
    ensures err.Some? ==> FailsRightly(evts, env, err.value)
  {
    hide Scanned, Joined, FailsRightly;
    ctx := was;
    var todo := was.groups.Keys;
    ghost var done: set<int> := {};
    NoneJoined(evts, env, was);
    while todo != {}
      invariant Joined(evts, env, done, was, ctx) && todo !! done && todo + done == was.groups.Keys
      decreases todo
    {
      ghost var some := SomeMember(todo);
      var g :| g in todo;
      err, ctx := JoinOne(evts, env, was, ctx, g, done);
      if err.Some? {
        return;
      }
      todo, done := todo - {g}, done + {g};
    }
    return None, ctx;
  }

  lemma NoneJoined(evts: seq<Evt>, env: Env, was: Ctx)
    requires Scanned(evts, env, |evts|, was)
    ensures Joined(evts, env, {}, was, was)
  {
  }

  // ----- Init -----

  /** Init can succeed: nothing fails fatally, no group is all uncore, and something opens if there is anything. */
  ghost predicate Fine(evts: seq<Evt>, env: Env) {
    && (forall i :: 0 <= i < |evts| ==> !Result(evts, env, i).Fatal?)
    && (forall g :: Seen(evts, g, |evts|) ==> !OnlyUncore(evts, env, g))
    && (evts == [] || exists i :: 0 <= i < |evts| && Result(evts, env, i) == Opened)
  }

  /** The lists that opened, in order. */
  ghost function Survivors(evts: seq<Evt>, env: Env, n: nat): seq<nat>
    requires n <= |evts|
  {
    if n == 0 then []
    else Survivors(evts, env, n - 1) + if Result(evts, env, n - 1) == Opened then [n - 1] else []
  }

  ghost function OpenedOf(r: nat -> Outcome, cs: seq<nat>): seq<nat> {
    if cs == [] then [] else OpenedOf(r, cs[..|cs| - 1]) + if r(cs[|cs| - 1]) == Opened then [cs[|cs| - 1]] else []
  }

  function Without(cs: seq<nat>, removed: set<nat>): seq<nat> {
    if cs == [] then [] else Without(cs[..|cs| - 1], removed) + if cs[|cs| - 1] in removed then [] else [cs[|cs| - 1]]
  }

  function Upto(n: nat): (r: seq<nat>)
    ensures |r| == n && forall i :: 0 <= i < n ==> r[i] == i
  {
    if n == 0 then [] else Upto(n - 1) + [n - 1]
  }

  /** After both passes exactly the lists that did not open are marked. */
  ghost predicate Marked(evts: seq<Evt>, env: Env, ctx: Ctx) {
    && (forall i :: 0 <= i < |evts| ==> !Result(evts, env, i).Fatal?)
    && (forall i :: i in ctx.removed <==> 0 <= i < |evts| && Result(evts, env, i) == Missing)
    && (ctx.oneOk <==> exists i :: 0 <= i < |evts| && Result(evts, env, i) == Opened)
    && (ctx.failed <==> ctx.removed != {})
  }

  lemma BothPasses(evts: seq<Evt>, env: Env, was: Ctx, ctx: Ctx)
    requires Scanned(evts, env, |evts|, was) && Joined(evts, env, was.groups.Keys, was, ctx)
    ensures Marked(evts, env, ctx)
  {
    forall i | 0 <= i < |evts|
      ensures First(evts, i) ==> Result(evts, env, i) == FirstResult(evts, env, i)
      ensures !First(evts, i) <==> ChildOf(evts, was.groups.Keys, i)
    {
      assert evts[i].gid != NO_GROUP ==> Seen(evts, evts[i].gid, |evts|);
    }
  }

  lemma {:induction false} KeptAre(evts: seq<Evt>, env: Env, removed: set<nat>, n: nat)
    requires n <= |evts| && forall i :: 0 <= i < |evts| ==> !Result(evts, env, i).Fatal?
    requires forall i :: 0 <= i < |evts| ==> (i in removed <==> Result(evts, env, i) == Missing)
    ensures Without(Upto(n), removed) == Survivors(evts, env, n)
  {
    if n > 0 {
      KeptAre(evts, env, removed, n - 1);
      assert Upto(n)[..n - 1] == Upto(n - 1);
    }
  }

  lemma {:induction false} ChildrenKept(r: nat -> Outcome, cs: seq<nat>, removed: set<nat>)
    requires forall j :: 0 <= j < |cs| ==> !r(cs[j]).Fatal? && (cs[j] in removed <==> r(cs[j]) == Missing)
    ensures Without(cs, removed) == OpenedOf(r, cs)
  {
    if cs != [] {
      ChildrenKept(r, cs[..|cs| - 1], removed);
    }
  }

  /** A published group: its leader, and the children that opened, in order. */
  ghost predicate PublishedRight(evts: seq<Evt>, env: Env, g: int, group: Group) {
    && group.leader.Some? && IsLeaderOf(evts, g, group.leader.value)
    && group.children == OpenedOf(ResultOf(evts, env), Children(evts, g, |evts|))
  }

  lemma PublishOne(evts: seq<Evt>, env: Env, g: int, group: Group, ctx: Ctx)
    requires g != NO_GROUP && GroupScanned(evts, env, |evts|, g, group) && Marked(evts, env, ctx) && group.leader.Some?
    ensures PublishedRight(evts, env, g, group.(children := Without(group.children, ctx.removed)))
  {
    GroupResults(evts, env, g, group);
    ChildrenKept(ResultOf(evts, env), group.children, ctx.removed);
  }

  lemma FineIff(evts: seq<Evt>, env: Env, was: Ctx, ctx: Ctx)
    requires Scanned(evts, env, |evts|, was) && Joined(evts, env, was.groups.Keys, was, ctx) && Marked(evts, env, ctx)
    ensures Fine(evts, env) <==> ctx.oneOk || !ctx.failed
    ensures !ctx.oneOk && ctx.failed ==> evts != [] && forall i :: 0 <= i < |evts| ==> Result(evts, env, i) == Missing
  {
    hide Result, Flags;
    assert forall g :: g in was.groups ==> !OnlyUncore(evts, env, g);
    if !ctx.oneOk && !ctx.failed {
      assert |evts| > 0 ==> Result(evts, env, 0) == Missing;
      assert |evts| > 0 ==> 0 in ctx.removed;
    }
  }

  lemma PublishedIff(evts: seq<Evt>, env: Env, was: Ctx, ctx: Ctx, g: int)
    requires Scanned(evts, env, |evts|, was) && Joined(evts, env, was.groups.Keys, was, ctx)
    ensures HasGroupedChild(evts, env, g) <==> g in ctx.groups && ctx.groups[g].leader.Some? && g in ctx.hasGroupedChild
  {
    if HasGroupedChild(evts, env, g) {
      var i :| ChildOf(evts, {g}, i) && Result(evts, env, i) == Opened;
      assert Seen(evts, g, |evts|);
    }
  }

  /** PmuList::Init, for every pattern of opens. */
  method Init(evts: seq<Evt>, env: Env) returns (err: Option<Failure>, kept: seq<nat>, published: map<int, Group>)
    ensures err.None? <==> Fine(evts, env)
    ensures err.None? ==> kept == Survivors(evts, env, |evts|)
    ensures err.None? ==> forall g :: g in published <==> HasGroupedChild(evts, env, g)
    ensures err.None? ==> forall g :: g in published ==> PublishedRight(evts, env, g, published[g])
    ensures err.Some? && !err.value.NothingOpened? ==> FailsRightly(evts, env, err.value)
    ensures err.Some? && err.value.NothingOpened? ==>
              evts != [] && forall i :: 0 <= i < |evts| ==> Result(evts, env, i) == Missing
  {
    kept, published := [], map[];
    var fatal, was := Scan(evts, env);
    if fatal.Some? {
      return Some(OpenFailed(fatal.value)), kept, published;
    }
    var failure, ctx := JoinAll(evts, env, was);
    if failure.Some? {
      OnlyUncoreSeen(evts, env);
      return failure, kept, published;
    }
    BothPasses(evts, env, was, ctx);
    FineIff(evts, env, was, ctx);
    hide Result, Joined, GroupScanned, HasGroupedChild, PublishedRight, Fine;
    kept := Without(Upto(|evts|), ctx.removed);
    KeptAre(evts, env, ctx.removed, |evts|);
    published := map g | g in ctx.groups && ctx.groups[g].leader.Some? && g in ctx.hasGroupedChild ::
                   ctx.groups[g].(children := Without(ctx.groups[g].children, ctx.removed));
    forall g
      ensures g in published <==> HasGroupedChild(evts, env, g)
      ensures g in published ==> PublishedRight(evts, env, g, published[g])
    {
      PublishedIff(evts, env, was, ctx, g);
      GroupOfJoined(evts, env, was, ctx, g);
      if g in published {
        PublishOne(evts, env, g, ctx.groups[g], ctx);
      }
    }
    if !ctx.oneOk && ctx.failed {
      return Some(NothingOpened), kept, published;
    }
    return None, kept, published;
  }

  lemma GroupOfJoined(evts: seq<Evt>, env: Env, was: Ctx, ctx: Ctx, g: int)
    requires Scanned(evts, env, |evts|, was) && Joined(evts, env, was.groups.Keys, was, ctx)
    ensures g in ctx.groups ==> g != NO_GROUP && GroupScanned(evts, env, |evts|, g, ctx.groups[g])
  {
  }

  lemma {:induction false} FlagsSeen(evts: seq<Evt>, env: Env, g: int, n: nat)
    requires n <= |evts|
    ensures Flags(evts, env, g, n) != [] ==> Seen(evts, g, n)
  {
    if n > 0 {
      FlagsSeen(evts, env, g, n - 1);
      SeenNext(evts, g, n - 1);
    }
  }

  lemma OnlyUncoreSeen(evts: seq<Evt>, env: Env)
    ensures forall g :: OnlyUncore(evts, env, g) ==> Seen(evts, g, |evts|)
  {
    forall g | OnlyUncore(evts, env, g)
      ensures Seen(evts, g, |evts|)
    {
      StateMeans(Flags(evts, env, g, |evts|));
      FlagsSeen(evts, env, g, |evts|);
    }
  }

  // ----- Naming the values of a group read -----

  /** The members of group `g` attached to its leader among the first `n` lists: the order of a group read. */
  ghost function Attached(evts: seq<Evt>, env: Env, g: int, n: nat): seq<nat>
    requires n <= |evts|
  {
    if n == 0 then []
    else
      Attached(evts, env, g, n - 1)
      + if evts[n - 1].gid == g && InGroup(evts, env, n - 1) && Result(evts, env, n - 1) == Opened then [n - 1] else []
  }

  /** Value 0 of a published group is its leader's and value k its child number k - 1's, as FillFields names them. */
  lemma ValuesAreNamed(evts: seq<Evt>, env: Env, g: int, group: Group)
    requires HasGroupedChild(evts, env, g) && PublishedRight(evts, env, g, group)
    ensures Attached(evts, env, g, |evts|) == [group.leader.value] + group.children
  {
    AttachedAre(evts, env, g, group.leader.value, |evts|);
  }

  lemma {:induction false} AttachedAre(evts: seq<Evt>, env: Env, g: int, leader: nat, n: nat)
    requires n <= |evts| && JoinsLeader(evts, env, g) && g != NO_GROUP && IsLeaderOf(evts, g, leader)
    ensures n <= leader ==> Attached(evts, env, g, n) == [] && Children(evts, g, n) == []
    ensures n > leader ==>
              Attached(evts, env, g, n) == [leader] + OpenedOf(ResultOf(evts, env), Children(evts, g, n))
  {
    if n > 0 {
      var i, r := n - 1, ResultOf(evts, env);
      AttachedAre(evts, env, g, leader, i);
      AttachedNext(evts, env, g, leader, i);
      hide Attached, Children, OpenedOf, JoinsLeader, IsLeaderOf, ResultOf, Result;
      var c := Children(evts, g, i);
      OpenedSnoc(r, c, i);
      NoneOpened(r);
      if i > leader && evts[i].gid == g && Result(evts, env, i) == Opened {
        assert [leader] + OpenedOf(r, c) + [i] == [leader] + (OpenedOf(r, c) + [i]);
      }
    }
  }

  /** How one more list changes the members attached and the children. */
  lemma AttachedNext(evts: seq<Evt>, env: Env, g: int, leader: nat, i: nat)
    requires i < |evts| && JoinsLeader(evts, env, g) && g != NO_GROUP && IsLeaderOf(evts, g, leader)
    ensures ResultOf(evts, env)(i) == Result(evts, env, i)
    ensures i < leader || evts[i].gid != g ==>
              && Attached(evts, env, g, i + 1) == Attached(evts, env, g, i)
              && Children(evts, g, i + 1) == Children(evts, g, i)
    ensures i == leader ==>
              && Attached(evts, env, g, i + 1) == Attached(evts, env, g, i) + [i]
              && Children(evts, g, i + 1) == Children(evts, g, i)
    ensures i > leader && evts[i].gid == g ==>
              && Children(evts, g, i + 1) == Children(evts, g, i) + [i]
              && Attached(evts, env, g, i + 1)
                 == Attached(evts, env, g, i) + if Result(evts, env, i) == Opened then [i] else []
  {
    MemberKinds(evts, env, g, leader, i);
    assert ResultOf(evts, env)(i) == Result(evts, env, i);
    hide InGroup, Result, ResultOf, JoinsLeader, IsLeader;
    var a, c := Attached(evts, env, g, i), Children(evts, g, i);
    assert a + [] == a && c + [] == c;
  }

  lemma OpenedSnoc(r: nat -> Outcome, c: seq<nat>, i: nat)
    ensures OpenedOf(r, c + [i]) == OpenedOf(r, c) + if r(i) == Opened then [i] else []
  {
    assert (c + [i])[..|c|] == c;
  }

  lemma NoneOpened(r: nat -> Outcome)
    ensures OpenedOf(r, []) == []
  {
  }

  /** Around its leader: no member before it, and every later one is a child that joins it. */
  lemma MemberKinds(evts: seq<Evt>, env: Env, g: int, leader: nat, i: nat)
    requires i < |evts| && JoinsLeader(evts, env, g) && g != NO_GROUP && IsLeaderOf(evts, g, leader)
    ensures i < leader ==> evts[i].gid != g
    ensures i == leader ==> !IsChild(evts, i) && InGroup(evts, env, i) && Result(evts, env, i) == Opened
    ensures i > leader && evts[i].gid == g ==> IsChild(evts, i) && InGroup(evts, env, i)
  {
    var j :| 0 <= j < |evts| && evts[j].gid == g && IsLeader(evts, j) && env(j, true) == Opened;
    LeadersAgree(evts, g, j, leader);
    assert i > leader ==> Seen(evts, g, i);
  }

  lemma LeadersAgree(evts: seq<Evt>, g: int, i: nat, j: nat)
    requires IsLeaderOf(evts, g, i) && IsLeaderOf(evts, g, j)
    ensures i == j
  {
  }
}
