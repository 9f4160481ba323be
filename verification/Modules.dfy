/**
  The module list of a process: sorted by start address, extended by what a new scan of the process maps adds or by a
  single module, and searched by address.
*/
module Modules {
  import opened Words

  datatype ModuleMap = ModuleMap(start: u64, name: string)

  ghost predicate Sorted(mods: seq<ModuleMap>) {
    forall i, j :: 0 <= i < j < |mods| ==> mods[i].start <= mods[j].start
  }

  ghost function Starts(mods: seq<ModuleMap>): set<u64> {
    set i | 0 <= i < |mods| :: mods[i].start
  }

  // ----- Library calls -----

  /** std::lower_bound on start addresses. */
  function LowerBound(mods: seq<ModuleMap>, start: u64): (i: nat)
    ensures i <= |mods| && (forall j :: 0 <= j < i ==> mods[j].start < start) && (i < |mods| ==> mods[i].start >= start)
  {
    if mods == [] || mods[0].start >= start then 0 else 1 + LowerBound(mods[1..], start)
  }

  function InsertAt(mods: seq<ModuleMap>, i: nat, m: ModuleMap): seq<ModuleMap>
    requires i <= |mods|
  {
    mods[..i] + [m] + mods[i..]
  }

  /** std::sort by start address. */
  function Sort(mods: seq<ModuleMap>): (r: seq<ModuleMap>) {
    if mods == [] then []
    else
      var n := |mods| - 1;
      var rest := Sort(mods[..n]);
      InsertAt(rest, LowerBound(rest, mods[n].start), mods[n])
  }

  lemma InsertKeeps(mods: seq<ModuleMap>, m: ModuleMap)
    requires Sorted(mods)
    ensures Sorted(InsertAt(mods, LowerBound(mods, m.start), m))
    ensures multiset(InsertAt(mods, LowerBound(mods, m.start), m)) == multiset(mods) + multiset{m}
  {
    var i := LowerBound(mods, m.start);
    var r := InsertAt(mods, i, m);
    assert mods == mods[..i] + mods[i..];
    forall a, b | 0 <= a < b < |r|
      ensures r[a].start <= r[b].start
    {
      if b == i {
        assert r[a] == mods[a];
      } else if a == i && i < |mods| {
        assert mods[i].start <= mods[b - 1].start;
      }
    }
  }

  lemma {:induction false} SortSorts(mods: seq<ModuleMap>)
    ensures Sorted(Sort(mods)) && multiset(Sort(mods)) == multiset(mods)
  {
    if mods != [] {
      var n := |mods| - 1;
      SortSorts(mods[..n]);
      InsertKeeps(Sort(mods[..n]), mods[n]);
      assert mods == mods[..n] + [mods[n]];
    }
  }

  lemma SameStarts(a: seq<ModuleMap>, b: seq<ModuleMap>)
    requires multiset(a) == multiset(b)
    ensures Starts(a) == Starts(b)
  {
    forall s
      ensures s in Starts(a) <==> s in Starts(b)
    {
      if s in Starts(a) {
        var i :| 0 <= i < |a| && a[i].start == s;
        assert a[i] in multiset(b);
        var j :| 0 <= j < |b| && b[j] == a[i];
      }
      if s in Starts(b) {
        var i :| 0 <= i < |b| && b[i].start == s;
        assert b[i] in multiset(a);
        var j :| 0 <= j < |a| && a[j] == b[i];
      }
    }
  }

  // ----- Searching -----

  /** A linear scan for the last module that starts at or before `addr`. */
  function LastAtMost(mods: seq<ModuleMap>, addr: u64): (r: Option<ModuleMap>) {
    if mods == [] then None
    else if mods[|mods| - 1].start <= addr then Some(mods[|mods| - 1])
    else LastAtMost(mods[..|mods| - 1], addr)
  }

  lemma {:induction false} LastIs(mods: seq<ModuleMap>, addr: u64, i: nat)
    requires i < |mods| && mods[i].start <= addr && forall j :: i < j < |mods| ==> mods[j].start > addr
    ensures LastAtMost(mods, addr) == Some(mods[i])
  {
    if i < |mods| - 1 {
      LastIs(mods[..|mods| - 1], addr, i);
    }
  }

  lemma {:induction false} NoneIs(mods: seq<ModuleMap>, addr: u64)
    requires forall j :: 0 <= j < |mods| ==> mods[j].start > addr
    ensures LastAtMost(mods, addr) == None
  {
    if mods != [] {
      NoneIs(mods[..|mods| - 1], addr);
    }
  }

  /** AddrToModule: the binary search finds what the linear scan finds. */
  method AddrToModule(mods: seq<ModuleMap>, addr: u64) returns (r: Option<ModuleMap>)
    requires Sorted(mods)
    ensures r == LastAtMost(mods, addr)
  {
    var start: int, end: int := 0, |mods| - 1;
    while start < end
      invariant 0 <= start && -1 <= end < |mods| && if mods == [] then start == 0 else start <= end
      invariant forall j :: 0 <= j < start ==> mods[j].start <= addr
      invariant start > 0 ==> mods[start].start <= addr
      invariant forall j :: end < j < |mods| ==> mods[j].start > addr
    {
      var mid := start + (end - start + 1) / 2;
      if mods[mid].start <= addr {
        start := mid;
      } else {
        end := mid - 1;
      }
    }
    if start == end && mods[start].start <= addr {
      LastIs(mods, addr, start);
      return Some(mods[start]);
    }
    NoneIs(mods, addr);
    return None;
  }

  // ----- Updating -----

  class ModuleList {
    var mods: seq<ModuleMap>

    ghost predicate Valid()
      reads this
    {
      Sorted(mods)
    }

    constructor ()
      ensures Valid() && mods == []
    {
      mods := [];
    }

    /** FindDiffMaps: the new modules whose start is not in the list yet, as often as the scan lists them. */
    method FindDiffMaps(news: seq<ModuleMap>) returns (diff: seq<ModuleMap>)
      ensures diff == Added(Starts(mods), news)
    {
      var starts := set m | m in mods :: m.start;
      assert starts == Starts(mods);
      diff := [];
      for i := 0 to |news|
        invariant diff == Added(starts, news[..i])
      {
        assert news[..i + 1][..i] == news[..i];
        if news[i].start !in starts {
          diff := diff + [news[i]];
        }
      }
      assert news[..|news|] == news;
    }

    /** UpdateModule: the list keeps what it had and gains exactly the new starts. */
    method UpdateModule(news: seq<ModuleMap>)
      requires Valid()
      modifies this
      ensures Valid() && multiset(mods) == multiset(old(mods)) + multiset(Added(Starts(old(mods)), news))
      ensures Starts(mods) == Starts(old(mods)) + Starts(news) && mods == After(old(mods), Update(news))
    {
      var diff := FindDiffMaps(news);
      ghost var was := mods;
      SortSorts(mods + diff);
      SameStarts(Sort(mods + diff), mods + diff);
      AddedStarts(mods, news);
      mods := Sort(mods + diff);
    }

    /** UpdateModule of one named module: inserted in place, unless a module of that name is there. */
    method InsertModule(m: ModuleMap)
      requires Valid()
      modifies this
      ensures Valid()
      ensures multiset(mods) == multiset(old(mods)) + if Named(old(mods), m.name) then multiset{} else multiset{m}
      ensures Starts(mods) == Starts(old(mods)) + if Named(old(mods), m.name) then {} else {m.start}
      ensures mods == After(old(mods), Insert(m))
    {
      var found := false;
      for i := 0 to |mods|
        invariant found <==> exists j :: 0 <= j < i && mods[j].name == m.name
      {
        if mods[i].name == m.name {
          found := true;
          break;
        }
      }
      if !found {
        InsertKeeps(mods, m);
        InsertStarts(mods, LowerBound(mods, m.start), m);
        mods := InsertAt(mods, LowerBound(mods, m.start), m);
      }
    }
  }

  ghost predicate Named(mods: seq<ModuleMap>, name: string) {
    exists j :: 0 <= j < |mods| && mods[j].name == name
  }

  ghost function Added(starts: set<u64>, news: seq<ModuleMap>): seq<ModuleMap> {
    if news == [] then []
    else
      var n := |news| - 1;
      Added(starts, news[..n]) + if news[n].start in starts then [] else [news[n]]
  }

  lemma {:induction false} AddedAre(starts: set<u64>, news: seq<ModuleMap>)
    ensures forall m :: m in Added(starts, news) <==> m in news && m.start !in starts
  {
    if news != [] {
      var n := |news| - 1;
      AddedAre(starts, news[..n]);
      assert news == news[..n] + [news[n]];
    }
  }

  lemma AddedStarts(mods: seq<ModuleMap>, news: seq<ModuleMap>)
    ensures Starts(mods + Added(Starts(mods), news)) == Starts(mods) + Starts(news)
  {
    var diff := Added(Starts(mods), news);
    AddedAre(Starts(mods), news);
    var all := mods + diff;
    forall s
      ensures s in Starts(all) <==> s in Starts(mods) || s in Starts(news)
    {
      if s in Starts(all) {
        var i :| 0 <= i < |all| && all[i].start == s;
        if i < |mods| {
          assert mods[i].start == s;
        } else {
          assert diff[i - |mods|] in diff;
          assert all[i] in news;
        }
      }
      if s in Starts(mods) {
        var i :| 0 <= i < |mods| && mods[i].start == s;
        assert all[i].start == s;
      } else if s in Starts(news) {
        var i :| 0 <= i < |news| && news[i].start == s;
        assert news[i] in diff;
        var j :| 0 <= j < |diff| && diff[j] == news[i];
        assert all[|mods| + j].start == s;
      }
    }
  }

  lemma InsertStarts(mods: seq<ModuleMap>, i: nat, m: ModuleMap)
    requires i <= |mods|
    ensures Starts(InsertAt(mods, i, m)) == Starts(mods) + {m.start}
  {
    var r := InsertAt(mods, i, m);
    assert mods == mods[..i] + mods[i..];
    assert multiset(r) == multiset(mods + [m]);
    SameStarts(r, mods + [m]);
    var all := mods + [m];
    forall s
      ensures s in Starts(all) <==> s in Starts(mods) || s == m.start
    {
      if s in Starts(mods) {
        var j :| 0 <= j < |mods| && mods[j].start == s;
        assert all[j].start == s;
      }
      assert all[|mods|].start == m.start;
    }
  }

  // ----- Every run of updates and lookups -----

  datatype Op = Update(news: seq<ModuleMap>) | Insert(m: ModuleMap) | Lookup(addr: u64)

  ghost function After(mods: seq<ModuleMap>, op: Op): seq<ModuleMap> {
    match op
    case Update(news) => Sort(mods + Added(Starts(mods), news))
    case Insert(m) => if Named(mods, m.name) then mods else InsertAt(mods, LowerBound(mods, m.start), m)
    case Lookup(_) => mods
  }

  ghost function AfterAll(mods: seq<ModuleMap>, ops: seq<Op>): seq<ModuleMap> {
    if ops == [] then mods else var n := |ops| - 1; After(AfterAll(mods, ops[..n]), ops[n])
  }

  /** What a linear scan of the list of the moment answers to each lookup. */
  ghost function Scanned(mods: seq<ModuleMap>, ops: seq<Op>): seq<Option<ModuleMap>> {
    if ops == [] then []
    else
      var n := |ops| - 1;
      Scanned(mods, ops[..n])
      + if ops[n].Lookup? then [LastAtMost(AfterAll(mods, ops[..n]), ops[n].addr)] else []
  }

  /** Any sequence of updates and lookups keeps the list sorted and loses no start, and every lookup answers what a
      linear scan would. */
  method Apply(list: ModuleList, ops: seq<Op>) returns (answers: seq<Option<ModuleMap>>)
    requires list.Valid()
    modifies list
    ensures list.Valid() && Starts(old(list.mods)) <= Starts(list.mods)
    ensures forall k :: 0 <= k < |ops| && ops[k].Update? ==> Starts(ops[k].news) <= Starts(list.mods)
    ensures list.mods == AfterAll(old(list.mods), ops) && answers == Scanned(old(list.mods), ops)
  {
    hide After, Starts;
    answers := [];
    for k := 0 to |ops|
      invariant list.Valid() && Starts(old(list.mods)) <= Starts(list.mods)
      invariant forall l :: 0 <= l < k && ops[l].Update? ==> Starts(ops[l].news) <= Starts(list.mods)
      invariant list.mods == AfterAll(old(list.mods), ops[..k]) && answers == Scanned(old(list.mods), ops[..k])
    {
      assert ops[..k + 1][..k] == ops[..k];
      match ops[k]
      case Update(news) => list.UpdateModule(news);
      case Insert(m) => list.InsertModule(m);
      case Lookup(addr) =>
        Unchanged(list.mods, addr);
        var r := AddrToModule(list.mods, addr);
        answers := answers + [r];
    }
    assert ops[..|ops|] == ops;
  }

  lemma Unchanged(mods: seq<ModuleMap>, addr: u64)
    ensures After(mods, Lookup(addr)) == mods
  {
  }
}
