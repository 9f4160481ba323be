/** Per-process BPF counting: the kernel programs of pmu/bpf/sched_counter.bpf.c and the user-space
    side of pmu/bpf/perf_counter_bpf.cpp that fills and drains their maps.

    The hardware counter of a CPU only grows; `on_switch` charges what it grew by since the CPU's
    snapshot to the key of the outgoing task. An untracked task leaves the snapshot alone. */
module SchedCounter {
  import opened Words
  import opened Sums
  import opened BpfValue

  type Pid = int

  const MAX_ENTRIES: nat := 102400

  /** The three BPF maps: snapshot per CPU, accumulators per key and CPU, and pid to key. */
  datatype Maps = Maps(prev: seq<Value>, accum: map<Pid, seq<Value>>, filter: map<Pid, Pid>)

  /** One PmuData row produced by a read. */
  datatype Row = Row(tid: Pid, cpu: nat, count: u64, enabled: u64, running: u64)

  ghost predicate Shaped(m: Maps) {
    forall k :: k in m.accum ==> |m.accum[k]| == |m.prev|
  }

  // ----- What each kernel or user step does to the maps -----

  ghost function Switched(m: Maps, cpu: nat, pid: Pid, reading: Option<Value>): Maps
    requires Shaped(m) && cpu < |m.prev|
  {
    if reading.None? || pid !in m.filter then m
    else
      var key := m.filter[pid];
      var moved := m.(prev := m.prev[cpu := reading.value]);
      if key !in m.accum then moved
      else
        var grown := Plus(m.accum[key][cpu], Delta(reading.value, m.prev[cpu]));
        moved.(accum := m.accum[key := m.accum[key][cpu := grown]])
  }

  ghost function Forked(m: Maps, parent: Pid, child: Pid): Maps {
    if parent in m.filter && child !in m.filter && |m.filter| < MAX_ENTRIES
    then m.(filter := m.filter[child := m.filter[parent]])
    else m
  }

  function RowsFrom(tid: Pid, values: seq<Value>, n: nat): seq<Row>
    requires n <= |values|
  {
    if n == 0 then []
    else
      var v := values[n - 1];
      RowsFrom(tid, values, n - 1) +
      (if v.counter == 0 then [] else [Row(tid, n - 1, v.counter, v.enabled, v.running)])
  }

  /** Draining `pids[..n]`: the maps afterwards and the rows handed to the caller. */
  ghost function Drained(m: Maps, pids: seq<Pid>, n: nat): (Maps, seq<Row>)
    requires Shaped(m) && n <= |pids|
    ensures Shaped(Drained(m, pids, n).0)
    ensures |Drained(m, pids, n).0.prev| == |m.prev|
    ensures Drained(m, pids, n).0.accum.Keys == m.accum.Keys
  {
    if n == 0 then (m, [])
    else
      var (before, rows) := Drained(m, pids, n - 1);
      var tid := pids[n - 1];
      if tid !in before.accum then (before, rows)
      else (before.(accum := before.accum[tid := ZeroRow(|m.prev|)]),
            rows + RowsFrom(tid, before.accum[tid], |before.accum[tid]|))
  }

  /** The maps of one event, held by the kernel and shared with user space. */
  class Program {
    var prev: seq<Value>
    var accum: map<Pid, seq<Value>>
    var filter: map<Pid, Pid>

    ghost function Now(): Maps
      reads this
    {
      Maps(prev, accum, filter)
    }

    /** Fresh BPF maps: zeroed snapshots, nothing tracked. */
    constructor (cpus: nat)
      ensures Now() == Maps(ZeroRow(cpus), map[], map[]) && Shaped(Now())
    {
      prev := seq(cpus, _ => ZERO);
      accum := map[];
      filter := map[];
    }

    method OnSwitch(cpu: nat, pid: Pid, reading: Option<Value>)
      requires Shaped(Now()) && cpu < |prev|
      modifies this
      ensures Now() == Switched(old(Now()), cpu, pid, reading) && Shaped(Now())
    {
      if reading.None? { return; }
      if pid !in filter { return; }
      var key, cur := filter[pid], reading.value;
      if key !in accum {
        prev := prev[cpu := cur];
        return;
      }
      accum := accum[key := accum[key][cpu := Plus(accum[key][cpu], Delta(cur, prev[cpu]))]];
      prev := prev[cpu := cur];
    }

    method OnNewTask(parent: Pid, child: Pid)
      modifies this
      ensures Now() == Forked(old(Now()), parent, child)
    {
      if parent !in filter { return; }
      if child !in filter && |filter| < MAX_ENTRIES {
        filter := filter[child := filter[parent]];
      }
    }

    /** Zeroed accumulator rows, for pids that have none yet. */
    method InitAccum(pids: seq<Pid>)
      requires Shaped(Now())
      modifies `accum
      ensures Shaped(Now()) && accum.Keys == old(accum.Keys) + (set p | p in pids)
      ensures forall p :: p in accum ==> accum[p] == if p in old(accum) then old(accum[p]) else ZeroRow(|prev|)
    {
      var i := 0;
      while i < |pids|
        invariant 0 <= i <= |pids| && Shaped(Now())
        invariant accum.Keys == old(accum.Keys) + (set p | p in pids[..i])
        invariant forall p :: p in accum ==> accum[p] == if p in old(accum) then old(accum[p]) else ZeroRow(|prev|)
      {
        if pids[i] !in accum { accum := accum[pids[i] := seq(|prev|, _ => ZERO)]; }
        assert pids[..i + 1] == pids[..i] + [pids[i]];
        i := i + 1;
      }
      assert pids[..i] == pids;
    }

    /** Rows are added once only, so a pid that is already tracked, or inherited a key, keeps it. */
    method InitPidForEvent(pids: seq<Pid>)
      requires Shaped(Now())
      modifies `accum, `filter
      ensures Shaped(Now()) && accum.Keys == old(accum.Keys) + (set p | p in pids)
      ensures forall p :: p in accum ==> accum[p] == if p in old(accum) then old(accum[p]) else ZeroRow(|prev|)
      ensures filter.Keys == old(filter.Keys) + (set p | p in pids)
      ensures forall p :: p in filter ==> filter[p] == if p in old(filter) then old(filter[p]) else p
      ensures old(accum) == map[] && old(filter) == map[] ==> Started(Now(), set p | p in pids)
    {
      InitAccum(pids);
      var i := 0;
      while i < |pids|
        modifies `filter
        invariant 0 <= i <= |pids|
        invariant filter.Keys == old(filter.Keys) + (set p | p in pids[..i])
        invariant forall p :: p in filter ==> filter[p] == if p in old(filter) then old(filter[p]) else p
      {
        if pids[i] !in filter { filter := filter[pids[i] := pids[i]]; }
        assert pids[..i + 1] == pids[..i] + [pids[i]];
        i := i + 1;
      }
      assert pids[..i] == pids;
    }

    /** Look up, report and zero the rows of `pids`, one pid after the other. */
    method ReadBpfProcess(pids: seq<Pid>) returns (data: seq<Row>)
      requires Shaped(Now())
      modifies this
      ensures Shaped(Now())
      ensures Now() == Drained(old(Now()), pids, |pids|).0
      ensures data == Drained(old(Now()), pids, |pids|).1
    {
      data := [];
      var i := 0;
      while i < |pids|
        invariant 0 <= i <= |pids| && Shaped(Now())
        invariant Now() == Drained(old(Now()), pids, i).0
        invariant data == Drained(old(Now()), pids, i).1
      {
        var tid := pids[i];
        if tid in accum {
          var values, base := accum[tid], data;
          var cpu := 0;
          while cpu < |values|
            invariant 0 <= cpu <= |values|
            invariant data == base + RowsFrom(tid, values, cpu)
          {
            if values[cpu].counter != 0 {
              data := data + [Row(tid, cpu, values[cpu].counter, values[cpu].enabled, values[cpu].running)];
            }
            cpu := cpu + 1;
          }
          accum := accum[tid := seq(|prev|, _ => ZERO)];
        }
        i := i + 1;
      }
    }
  }

  // ----- Runs -----

  /** A step of the run; `ReadClear` is one uninterrupted drain, and the switch that a read triggers
      on every CPU is an ordinary `Switch`. */
  datatype Event =
    | Switch(cpu: nat, pid: Pid, reading: Option<Value>)
    | NewTask(parent: Pid, child: Pid)
    | ReadClear(pids: seq<Pid>)

  datatype Sys = Sys(maps: Maps, rows: seq<Row>)

  ghost predicate Started(m: Maps, tracked: set<Pid>) {
    && m.accum.Keys == m.filter.Keys == tracked
    && (forall p :: p in m.filter ==> m.filter[p] == p)
    && (forall p :: p in m.accum ==> m.accum[p] == ZeroRow(|m.prev|))
  }

  ghost function Run(start: Maps, es: seq<Event>): (s: Sys)
    requires Shaped(start)
    requires forall e :: e in es && e.Switch? ==> e.cpu < |start.prev|
    ensures Shaped(s.maps) && |s.maps.prev| == |start.prev| && s.maps.accum.Keys == start.accum.Keys
  {
    if es == [] then Sys(start, [])
    else
      var n := |es| - 1;
      var s := Run(start, es[..n]);
      match es[n]
      case Switch(cpu, pid, reading) =>
        assert es[n] in es;
        s.(maps := Switched(s.maps, cpu, pid, reading))
      case NewTask(parent, child) => s.(maps := Forked(s.maps, parent, child))
      case ReadClear(pids) =>
        var d := Drained(s.maps, pids, |pids|);
        Sys(d.0, s.rows + d.1)
  }

  /** The maps are set up for `tracked`, and switches happen on CPUs there are. Nothing else is asked of a run: the
      filter map may fill up and pids may be used again. */
  ghost predicate Possible(start: Maps, tracked: set<Pid>, es: seq<Event>) {
    Shaped(start) && Started(start, tracked) && forall e :: e in es && e.Switch? ==> e.cpu < |start.prev|
  }

  lemma PossibleBefore(start: Maps, tracked: set<Pid>, es: seq<Event>)
    requires es != [] && Possible(start, tracked, es)
    ensures Possible(start, tracked, es[..|es| - 1])
  {
    assert forall e :: e in es[..|es| - 1] ==> e in es;
  }

  // ----- The fork tree -----

  /** The `i`-th step of `path` goes from an untracked process to the one that forked it. */
  ghost predicate Edge(tracked: set<Pid>, es: seq<Event>, path: seq<Pid>, i: nat)
    requires i + 1 < |path|
  {
    path[i] !in tracked && NewTask(path[i + 1], path[i]) in es
  }

  /** `path` climbs from a task through its forks to the first tracked task. */
  ghost predicate Climbs(tracked: set<Pid>, es: seq<Event>, path: seq<Pid>) {
    && |path| > 0 && path[|path| - 1] in tracked
    && forall i :: 0 <= i && i + 1 < |path| ==> Edge(tracked, es, path, i)
  }

  /** `key` is the nearest tracked ancestor-or-self of `pid`. */
  ghost predicate NearestTracked(tracked: set<Pid>, es: seq<Event>, pid: Pid, key: Pid) {
    exists path :: ClimbsFromTo(tracked, es, path, pid, key)
  }

  ghost predicate ClimbsFromTo(tracked: set<Pid>, es: seq<Event>, path: seq<Pid>, pid: Pid, key: Pid) {
    Climbs(tracked, es, path) && path[0] == pid && path[|path| - 1] == key
  }

  ghost predicate Descends(tracked: set<Pid>, es: seq<Event>, pid: Pid) {
    exists key :: NearestTracked(tracked, es, pid, key)
  }

  lemma ClimbsAfter(tracked: set<Pid>, es: seq<Event>, e: Event, path: seq<Pid>)
    requires Climbs(tracked, es, path)
    ensures Climbs(tracked, es + [e], path)
  {
    forall i | 0 <= i && i + 1 < |path|
      ensures Edge(tracked, es + [e], path, i)
    {
      assert Edge(tracked, es, path, i);
    }
  }

  lemma NearestAfter(tracked: set<Pid>, es: seq<Event>, e: Event, pid: Pid, key: Pid)
    requires NearestTracked(tracked, es, pid, key)
    ensures NearestTracked(tracked, es + [e], pid, key)
  {
    hide Climbs;
    var path :| ClimbsFromTo(tracked, es, path, pid, key);
    ClimbsAfter(tracked, es, e, path);
    assert ClimbsFromTo(tracked, es + [e], path, pid, key);
  }

  /** A child climbs through the task that forked it. */
  lemma ChildClimbs(tracked: set<Pid>, es: seq<Event>, parent: Pid, child: Pid, key: Pid)
    requires NearestTracked(tracked, es, parent, key) && child !in tracked
    ensures NearestTracked(tracked, es + [NewTask(parent, child)], child, key)
  {
    var path :| ClimbsFromTo(tracked, es, path, parent, key);
    ClimbsAfter(tracked, es, NewTask(parent, child), path);
    var all, longer := es + [NewTask(parent, child)], [child] + path;
    forall i | 0 <= i && i + 1 < |longer|
      ensures Edge(tracked, all, longer, i)
    {
      if i > 0 { assert Edge(tracked, all, path, i - 1); }
    }
    assert longer[|longer| - 1] == key;
    assert ClimbsFromTo(tracked, all, longer, child, key);
  }

  lemma TrackedIsNearest(tracked: set<Pid>, es: seq<Event>, pid: Pid)
    requires pid in tracked
    ensures NearestTracked(tracked, es, pid, pid)
  {
    assert ClimbsFromTo(tracked, es, [pid], pid, pid);
  }

  // ----- Under which key a task is counted -----

  /** What the fork program leaves in the filter map, from the forks alone: a child inherits its parent's key if it has
      none yet and the map has room. */
  ghost function Owners(tracked: set<Pid>, es: seq<Event>): (o: map<Pid, Pid>)
    ensures tracked <= o.Keys && forall pid :: pid in tracked ==> o[pid] == pid
    ensures forall pid :: pid in o ==> o[pid] in tracked
  {
    if es == [] then map p | p in tracked :: p
    else
      var n := |es| - 1;
      var o := Owners(tracked, es[..n]);
      if es[n].NewTask? && es[n].parent in o && es[n].child !in o && |o| < MAX_ENTRIES
      then o[es[n].child := o[es[n].parent]] else o
  }

  ghost function Owner(tracked: set<Pid>, es: seq<Event>, pid: Pid): Option<Pid> {
    if pid in Owners(tracked, es) then Some(Owners(tracked, es)[pid]) else None
  }

  lemma {:induction false} FilterIsOwners(start: Maps, tracked: set<Pid>, es: seq<Event>)
    requires Possible(start, tracked, es)
    ensures Run(start, es).maps.filter == Owners(tracked, es)
    decreases |es|
  {
    if es != [] {
      var n := |es| - 1;
      assert es[n] in es;
      PossibleBefore(start, tracked, es);
      FilterIsOwners(start, tracked, es[..n]);
      if es[n].ReadClear? { DrainKeepsFilter(Run(start, es[..n]).maps, es[n].pids, |es[n].pids|); }
    }
  }

  lemma {:induction false} DrainKeepsFilter(m: Maps, pids: seq<Pid>, n: nat)
    requires Shaped(m) && n <= |pids|
    ensures Drained(m, pids, n).0.filter == m.filter && Drained(m, pids, n).0.prev == m.prev
  {
    if n > 0 { DrainKeepsFilter(m, pids, n - 1); }
  }

  /** Every key in the filter map has a row to charge. */
  lemma FilterHasRows(start: Maps, tracked: set<Pid>, es: seq<Event>, pid: Pid)
    requires Possible(start, tracked, es) && pid in Run(start, es).maps.filter
    ensures Run(start, es).maps.accum.Keys == tracked
    ensures Run(start, es).maps.filter[pid] in tracked
  {
    FilterIsOwners(start, tracked, es);
  }

  /** The key in the filter map is a nearest tracked fork ancestor-or-self. */
  lemma {:induction false} OwnerIsNearest(tracked: set<Pid>, es: seq<Event>, pid: Pid)
    requires pid in Owners(tracked, es)
    ensures NearestTracked(tracked, es, pid, Owners(tracked, es)[pid])
    decreases |es|
  {
    hide NearestTracked;
    if es == [] {
      TrackedIsNearest(tracked, es, pid);
    } else {
      var n := |es| - 1;
      var before := es[..n];
      assert es == before + [es[n]];
      if pid in Owners(tracked, before) {
        OwnerIsNearest(tracked, before, pid);
        NearestAfter(tracked, before, es[n], pid, Owners(tracked, before)[pid]);
      } else {
        OwnerIsNearest(tracked, before, es[n].parent);
        ChildClimbs(tracked, before, es[n].parent, pid, Owners(tracked, before)[es[n].parent]);
        assert es[n] == NewTask(es[n].parent, pid);
      }
    }
  }

  // ----- When the filter map is complete -----

  /** A new task's pid is new: no tracked task, no parent and no child had it before. */
  ghost predicate FreshPids(tracked: set<Pid>, es: seq<Event>) {
    es == [] || (
      var n := |es| - 1;
      && FreshPids(tracked, es[..n])
      && (es[n].NewTask? ==>
            && es[n].child !in tracked && es[n].child != es[n].parent
            && forall e :: e in es[..n] && e.NewTask? ==> es[n].child != e.parent && es[n].child != e.child))
  }

  /** Forks by descendants of tracked tasks. */
  ghost function Forks(tracked: set<Pid>, es: seq<Event>): nat {
    if es == [] then 0
    else
      var n := |es| - 1;
      Forks(tracked, es[..n]) + if es[n].NewTask? && Descends(tracked, es[..n], es[n].parent) then 1 else 0
  }

  /** No descendant of a tracked task forks when the tracked tasks and the earlier such forks have used up the map. */
  ghost predicate Roomy(tracked: set<Pid>, es: seq<Event>) {
    es == [] || (
      var n := |es| - 1;
      && Roomy(tracked, es[..n])
      && (es[n].NewTask? && Descends(tracked, es[..n], es[n].parent) ==>
            |tracked| + Forks(tracked, es[..n]) < MAX_ENTRIES))
  }

  /** A mapped task is tracked or was forked. */
  lemma {:induction false} OwnersAreKnown(tracked: set<Pid>, es: seq<Event>, pid: Pid)
    requires pid in Owners(tracked, es)
    ensures pid in tracked || exists e :: e in es && e.NewTask? && e.child == pid
    decreases |es|
  {
    if es != [] {
      var n := |es| - 1;
      assert es == es[..n] + [es[n]];
      if pid in Owners(tracked, es[..n]) { OwnersAreKnown(tracked, es[..n], pid); }
    }
  }

  /** A path that does not start at the new child never uses the new fork. */
  lemma ClimbsBefore(tracked: set<Pid>, es: seq<Event>, path: seq<Pid>)
    requires es != [] && FreshPids(tracked, es) && Climbs(tracked, es, path)
    requires es[|es| - 1].NewTask? ==> path[0] != es[|es| - 1].child
    ensures Climbs(tracked, es[..|es| - 1], path)
  {
    var n := |es| - 1;
    assert es == es[..n] + [es[n]];
    forall i | 0 <= i && i + 1 < |path|
      ensures Edge(tracked, es[..n], path, i)
    {
      assert Edge(tracked, es, path, i);
      if i > 0 { assert Edge(tracked, es, path, i - 1); }
    }
  }

  lemma NearestBefore(tracked: set<Pid>, es: seq<Event>, pid: Pid, key: Pid)
    requires es != [] && FreshPids(tracked, es) && NearestTracked(tracked, es, pid, key)
    requires es[|es| - 1].NewTask? ==> pid != es[|es| - 1].child
    ensures NearestTracked(tracked, es[..|es| - 1], pid, key)
  {
    hide Climbs;
    var path :| ClimbsFromTo(tracked, es, path, pid, key);
    ClimbsBefore(tracked, es, path);
    assert ClimbsFromTo(tracked, es[..|es| - 1], path, pid, key);
  }

  /** The ancestors of a new child are those of its parent. */
  lemma ParentOfChild(tracked: set<Pid>, es: seq<Event>, key: Pid)
    requires es != [] && FreshPids(tracked, es) && es[|es| - 1].NewTask?
    requires NearestTracked(tracked, es, es[|es| - 1].child, key)
    ensures NearestTracked(tracked, es[..|es| - 1], es[|es| - 1].parent, key)
  {
    var n := |es| - 1;
    var child := es[n].child;
    assert es == es[..n] + [es[n]];
    var path :| ClimbsFromTo(tracked, es, path, child, key);
    assert Edge(tracked, es, path, 0);
    assert NewTask(path[1], child) !in es[..n];
    forall i | 0 <= i && i + 1 < |path[1..]|
      ensures Edge(tracked, es, path[1..], i)
    {
      assert Edge(tracked, es, path, i + 1);
    }
    assert ClimbsFromTo(tracked, es, path[1..], es[n].parent, key);
    NearestBefore(tracked, es, es[n].parent, key);
  }

  /** A new child is not in the map yet. */
  lemma ChildIsUnknown(tracked: set<Pid>, es: seq<Event>)
    requires es != [] && FreshPids(tracked, es) && es[|es| - 1].NewTask?
    ensures es[|es| - 1].child !in Owners(tracked, es[..|es| - 1])
  {
    var n := |es| - 1;
    if es[n].child in Owners(tracked, es[..n]) { OwnersAreKnown(tracked, es[..n], es[n].child); }
  }

  /** With room, a fork by a descendant takes one entry and its child gets the parent's key. */
  lemma ForkIsCounted(tracked: set<Pid>, es: seq<Event>)
    requires es != [] && FreshPids(tracked, es) && Roomy(tracked, es) && es[|es| - 1].NewTask?
    requires |Owners(tracked, es[..|es| - 1])| == |tracked| + Forks(tracked, es[..|es| - 1])
    requires Descends(tracked, es[..|es| - 1], es[|es| - 1].parent) ==>
               es[|es| - 1].parent in Owners(tracked, es[..|es| - 1])
    ensures |Owners(tracked, es)| == |tracked| + Forks(tracked, es)
    ensures var n := |es| - 1;
            Owner(tracked, es, es[n].child) == Owner(tracked, es[..n], es[n].parent)
  {
    hide NearestTracked;
    var n := |es| - 1;
    var o := Owners(tracked, es[..n]);
    ChildIsUnknown(tracked, es);
    if es[n].parent in o {
      OwnerIsNearest(tracked, es[..n], es[n].parent);
      assert Descends(tracked, es[..n], es[n].parent);
      assert Owners(tracked, es) == o[es[n].child := o[es[n].parent]];
    }
  }

  /** With room, every descendant of a tracked task is counted under its nearest tracked ancestor, and the map holds
      exactly the tracked tasks and the forks. */
  lemma {:induction false} RoomyIsComplete(tracked: set<Pid>, es: seq<Event>, pid: Pid, key: Pid)
    requires FreshPids(tracked, es) && Roomy(tracked, es)
    ensures NearestTracked(tracked, es, pid, key) ==> Owner(tracked, es, pid) == Some(key)
    ensures |Owners(tracked, es)| == |tracked| + Forks(tracked, es)
    decreases |es|
  {
    hide NearestTracked;
    if es == [] {
      NothingForked(tracked, pid, key);
      assert Owners(tracked, es).Keys == tracked;
    } else {
      var n := |es| - 1;
      RoomyIsComplete(tracked, es[..n], pid, key);
      if es[n].NewTask? {
        if k :| NearestTracked(tracked, es[..n], es[n].parent, k) {
          RoomyIsComplete(tracked, es[..n], es[n].parent, k);
        }
        ForkIsCounted(tracked, es);
      }
      if NearestTracked(tracked, es, pid, key) {
        if es[n].NewTask? && pid == es[n].child {
          ParentOfChild(tracked, es, key);
          RoomyIsComplete(tracked, es[..n], es[n].parent, key);
        } else {
          NearestBefore(tracked, es, pid, key);
        }
      }
    }
  }

  lemma NothingForked(tracked: set<Pid>, pid: Pid, key: Pid)
    ensures NearestTracked(tracked, [], pid, key) ==> pid == key && pid in tracked
  {
    if NearestTracked(tracked, [], pid, key) {
      var path :| ClimbsFromTo(tracked, [], path, pid, key);
      assert |path| > 1 ==> Edge(tracked, [], path, 0);
    }
  }

  /** Without room some child stays out of the map for good. */
  lemma {:induction false} FullLosesChild(tracked: set<Pid>, es: seq<Event>) returns (pid: Pid, key: Pid)
    requires FreshPids(tracked, es) && !Roomy(tracked, es)
    ensures NearestTracked(tracked, es, pid, key) && Owner(tracked, es, pid) == None
    ensures pid !in tracked && exists e :: e in es && e.NewTask? && e.child == pid
    decreases |es|
  {
    hide NearestTracked;
    var n := |es| - 1;
    var before := es[..n];
    assert es == before + [es[n]];
    if Roomy(tracked, before) {
      key :| NearestTracked(tracked, before, es[n].parent, key);
      pid := es[n].child;
      RoomyIsComplete(tracked, before, es[n].parent, key);
      ChildIsUnknown(tracked, es);
      ChildClimbs(tracked, before, es[n].parent, pid, key);
      assert es[n] == NewTask(es[n].parent, pid) && es[n] in es;
    } else {
      pid, key := FullLosesChild(tracked, before);
      NearestAfter(tracked, before, es[n], pid, key);
    }
  }

  /** The filter map is exactly "nearest tracked fork ancestor-or-self" if and only if it never fills up. */
  lemma FilterIsNearestTracked(start: Maps, tracked: set<Pid>, es: seq<Event>)
    requires Possible(start, tracked, es) && FreshPids(tracked, es)
    ensures var filter := Run(start, es).maps.filter;
            (forall pid, key :: NearestTracked(tracked, es, pid, key) <==> pid in filter && filter[pid] == key)
            <==> Roomy(tracked, es)
  {
    hide NearestTracked, Roomy, FreshPids;
    var filter := Run(start, es).maps.filter;
    FilterIsOwners(start, tracked, es);
    if Roomy(tracked, es) {
      forall pid, key
        ensures NearestTracked(tracked, es, pid, key) <==> pid in filter && filter[pid] == key
      {
        RoomyIsComplete(tracked, es, pid, key);
        if pid in filter { OwnerIsNearest(tracked, es, pid); }
      }
    } else {
      var pid, key := FullLosesChild(tracked, es);
    }
  }

  /** In every run the filter map names a nearest tracked fork ancestor-or-self. */
  lemma FilterIsSound(start: Maps, tracked: set<Pid>, es: seq<Event>, pid: Pid)
    requires Possible(start, tracked, es) && pid in Run(start, es).maps.filter
    ensures NearestTracked(tracked, es, pid, Run(start, es).maps.filter[pid])
  {
    FilterIsOwners(start, tracked, es);
    OwnerIsNearest(tracked, es, pid);
  }

  // ----- A run that fills the map -----

  /** Task 0 forks 1, 2, .. n. */
  function Brood(n: nat): (es: seq<Event>)
    ensures |es| == n && forall e :: e in es ==> e.NewTask? && e.parent == 0 && 1 <= e.child <= n
  {
    if n == 0 then [] else Brood(n - 1) + [NewTask(0, n)]
  }

  lemma {:induction false} BroodIsFresh(n: nat)
    ensures FreshPids({0}, Brood(n))
  {
    if n > 0 {
      BroodIsFresh(n - 1);
      assert Brood(n)[..n - 1] == Brood(n - 1) && Brood(n)[n - 1] == NewTask(0, n);
    }
  }

  lemma BroodNext(n: nat)
    requires n > 0
    ensures Brood(n) == Brood(n - 1) + [NewTask(0, n)] && Brood(0) == []
  {
  }

  lemma {:induction false} BroodOwners(n: nat)
    ensures Owners({0}, Brood(n)).Keys == Upto(if n < MAX_ENTRIES then n + 1 else MAX_ENTRIES)
  {
    hide Owners, Brood, Upto;
    if n == 0 {
      NoBrood();
    } else {
      BroodOwners(n - 1);
      BroodNext(n);
      OwnersNext({0}, Brood(n - 1), 0, n);
      assert |Owners({0}, Brood(n - 1)).Keys| == if n < MAX_ENTRIES then n else MAX_ENTRIES;
    }
  }

  lemma NoBrood()
    ensures Owners({0}, Brood(0)).Keys == Upto(1)
  {
    assert Brood(0) == [];
  }

  lemma OwnersNext(tracked: set<Pid>, es: seq<Event>, parent: Pid, child: Pid)
    ensures var o := Owners(tracked, es);
            Owners(tracked, es + [NewTask(parent, child)])
            == if parent in o && child !in o && |o.Keys| < MAX_ENTRIES then o[child := o[parent]] else o
  {
    assert (es + [NewTask(parent, child)])[..|es|] == es;
    assert |Owners(tracked, es)| == |Owners(tracked, es).Keys|;
  }

  ghost function Upto(n: nat): (s: set<Pid>)
    ensures |s| == n && forall p :: p in s <==> 0 <= p < n
  {
    if n == 0 then {} else Upto(n - 1) + {n - 1}
  }

  /** Task number MAX_ENTRIES is a child of a tracked task that finds the map full: it is never counted, and what it
      runs is left in front of the next task of the CPU. */
  lemma FullMap(start: Maps, reading: Value)
    requires Shaped(start) && Started(start, {0}) && |start.prev| > 0
    ensures var es := Brood(MAX_ENTRIES);
            && Possible(start, {0}, es) && FreshPids({0}, es) && !Roomy({0}, es)
            && NearestTracked({0}, es, MAX_ENTRIES, 0) && MAX_ENTRIES !in Run(start, es).maps.filter
            && Switched(Run(start, es).maps, 0, MAX_ENTRIES, Some(reading)) == Run(start, es).maps
  {
    hide Brood, Upto;
    BroodNext(MAX_ENTRIES);
    var es := Brood(MAX_ENTRIES);
    BroodIsFresh(MAX_ENTRIES);
    BroodOwners(MAX_ENTRIES);
    FilterIsOwners(start, {0}, es);
    TrackedIsNearest({0}, Brood(MAX_ENTRIES - 1), 0);
    ChildClimbs({0}, Brood(MAX_ENTRIES - 1), 0, MAX_ENTRIES, 0);
    if Roomy({0}, es) { RoomyIsComplete({0}, es, MAX_ENTRIES, 0); }
  }

  // ----- What is charged -----

  /** A switch on `cpu` whose counter could be read. */
  predicate SwitchOn(e: Event, cpu: nat) {
    e.Switch? && e.cpu == cpu && e.reading.Some?
  }

  /** The counter of `cpu` at its last switch away from a counted task. */
  ghost function LastCharged(first: int, tracked: set<Pid>, es: seq<Event>, cpu: nat): int {
    if es == [] then first
    else
      var n := |es| - 1;
      if SwitchOn(es[n], cpu) && Owner(tracked, es[..n], es[n].pid).Some?
      then es[n].reading.value.counter
      else LastCharged(first, tracked, es[..n], cpu)
  }

  /** The counter of `cpu` at its last switch that could be read, whoever ran. A switch with a read error leaves no
      trace: the interval it ends is joined to the one after it. */
  ghost function LastSwitch(first: int, es: seq<Event>, cpu: nat): int {
    if es == [] then first
    else
      var n := |es| - 1;
      if SwitchOn(es[n], cpu) then es[n].reading.value.counter else LastSwitch(first, es[..n], cpu)
  }

  ghost predicate Pays(tracked: set<Pid>, es: seq<Event>, key: Pid, cpu: nat)
    requires es != []
  {
    var n := |es| - 1;
    SwitchOn(es[n], cpu) && Owner(tracked, es[..n], es[n].pid) == Some(key)
  }

  /** Everything between charged switches on `cpu`, summed over those paid by `key`. */
  ghost function Charged(first: int, tracked: set<Pid>, es: seq<Event>, key: Pid, cpu: nat): int {
    if es == [] then 0
    else
      var n := |es| - 1;
      Charged(first, tracked, es[..n], key, cpu) +
      (if Pays(tracked, es, key, cpu)
       then es[n].reading.value.counter - LastCharged(first, tracked, es[..n], cpu) else 0)
  }

  /** What the tasks counted under `key` ran on `cpu`: each interval since the readable switch before it. */
  ghost function Ran(first: int, tracked: set<Pid>, es: seq<Event>, key: Pid, cpu: nat): int {
    if es == [] then 0
    else
      var n := |es| - 1;
      Ran(first, tracked, es[..n], key, cpu) +
      (if Pays(tracked, es, key, cpu)
       then es[n].reading.value.counter - LastSwitch(first, es[..n], cpu) else 0)
  }

  /** Uncounted time on `cpu` that directly precedes an interval of `key`. */
  ghost function Stray(first: int, tracked: set<Pid>, es: seq<Event>, key: Pid, cpu: nat): int {
    if es == [] then 0
    else
      var n := |es| - 1;
      Stray(first, tracked, es[..n], key, cpu) +
      (if Pays(tracked, es, key, cpu)
       then LastSwitch(first, es[..n], cpu) - LastCharged(first, tracked, es[..n], cpu) else 0)
  }

  /** Sum of the counts reported for `key` on `cpu`. */
  ghost function Reported(rows: seq<Row>, key: Pid, cpu: nat): int {
    if rows == [] then 0
    else
      var r := rows[|rows| - 1];
      Reported(rows[..|rows| - 1], key, cpu) + (if r.tid == key && r.cpu == cpu then r.count else 0)
  }

  lemma {:induction false} ReportedConcat(a: seq<Row>, b: seq<Row>, key: Pid, cpu: nat)
    ensures Reported(a + b, key, cpu) == Reported(a, key, cpu) + Reported(b, key, cpu)
    decreases |b|
  {
    if b == [] {
      assert a + b == a;
    } else {
      ReportedConcat(a, b[..|b| - 1], key, cpu);
      assert (a + b)[..|a + b| - 1] == a + b[..|b| - 1];
    }
  }

  /** A row is missing only where the counter is zero, so no count is lost. */
  lemma {:induction false} RowsFromReported(tid: Pid, values: seq<Value>, n: nat, key: Pid, cpu: nat)
    requires n <= |values|
    ensures Reported(RowsFrom(tid, values, n), key, cpu)
            == if tid == key && cpu < n then values[cpu].counter else 0
  {
    if n > 0 {
      RowsFromReported(tid, values, n - 1, key, cpu);
      var v := values[n - 1];
      ReportedConcat(RowsFrom(tid, values, n - 1),
                     if v.counter == 0 then [] else [Row(tid, n - 1, v.counter, v.enabled, v.running)], key, cpu);
      var last := Row(tid, n - 1, v.counter, v.enabled, v.running);
      assert [last][..0] == [] && Reported([last][..0], key, cpu) == 0;
    }
  }

  lemma {:induction false} DrainConserves(m: Maps, pids: seq<Pid>, n: nat, key: Pid, cpu: nat)
    requires Shaped(m) && n <= |pids| && key in m.accum && cpu < |m.prev|
    ensures var (after, rows) := Drained(m, pids, n);
            Reported(rows, key, cpu) + after.accum[key][cpu].counter == m.accum[key][cpu].counter
  {
    if n > 0 {
      DrainConserves(m, pids, n - 1, key, cpu);
      var (before, rows) := Drained(m, pids, n - 1);
      var tid := pids[n - 1];
      if tid in before.accum {
        RowsFromReported(tid, before.accum[tid], |before.accum[tid]|, key, cpu);
        ReportedConcat(rows, RowsFrom(tid, before.accum[tid], |before.accum[tid]|), key, cpu);
      }
    }
  }

  /** Reported plus stored for a key on a CPU is exactly what was charged to it, and the snapshot is the
      counter at the last charged switch. */
  ghost predicate Balanced(start: Maps, tracked: set<Pid>, es: seq<Event>, key: Pid, cpu: nat)
    requires Possible(start, tracked, es) && key in tracked && cpu < |start.prev|
  {
    var s := Run(start, es);
    var first := start.prev[cpu].counter;
    && s.maps.prev[cpu].counter == LastCharged(first, tracked, es, cpu)
    && Cong(Reported(s.rows, key, cpu) + s.maps.accum[key][cpu].counter, Charged(first, tracked, es, key, cpu))
  }

  ghost predicate BalancedBefore(start: Maps, tracked: set<Pid>, es: seq<Event>, key: Pid, cpu: nat)
    requires Possible(start, tracked, es) && key in tracked && cpu < |start.prev| && es != []
  {
    PossibleBefore(start, tracked, es);
    Balanced(start, tracked, es[..|es| - 1], key, cpu)
  }

  lemma BalancedSwitch(start: Maps, tracked: set<Pid>, es: seq<Event>, key: Pid, cpu: nat)
    requires Possible(start, tracked, es) && key in tracked && cpu < |start.prev|
    requires es != [] && es[|es| - 1].Switch? && BalancedBefore(start, tracked, es, key, cpu)
    ensures Balanced(start, tracked, es, key, cpu)
  {
    var n := |es| - 1;
    var before, e := es[..n], es[n];
    assert e in es;
    var m, rows := Run(start, before).maps, Run(start, before).rows;
    var first := start.prev[cpu].counter;
    PossibleBefore(start, tracked, es);
    FilterIsOwners(start, tracked, before);
    if e.pid in m.filter { FilterHasRows(start, tracked, before, e.pid); }
    SwitchEffect(m, e.cpu, e.pid, e.reading, key, cpu);
    assert Run(start, es) == Sys(Switched(m, e.cpu, e.pid, e.reading), rows);
    assert Pays(tracked, es, key, cpu) <==>
           e.cpu == cpu && e.reading.Some? && e.pid in m.filter && m.filter[e.pid] == key;
    if Pays(tracked, es, key, cpu) {
      ChargeCong(Reported(rows, key, cpu), m.accum[key][cpu].counter, e.reading.value.counter,
                 m.prev[cpu].counter, Charged(first, tracked, before, key, cpu));
    }
  }

  lemma BalancedRead(start: Maps, tracked: set<Pid>, es: seq<Event>, key: Pid, cpu: nat)
    requires Possible(start, tracked, es) && key in tracked && cpu < |start.prev|
    requires es != [] && es[|es| - 1].ReadClear? && BalancedBefore(start, tracked, es, key, cpu)
    ensures Balanced(start, tracked, es, key, cpu)
  {
    var n := |es| - 1;
    var m, rows, pids := Run(start, es[..n]).maps, Run(start, es[..n]).rows, es[n].pids;
    DrainKeepsFilter(m, pids, |pids|);
    DrainConserves(m, pids, |pids|, key, cpu);
    ReportedConcat(rows, Drained(m, pids, |pids|).1, key, cpu);
    assert !Pays(tracked, es, key, cpu);
  }

  lemma {:induction false} ChargedExactly(start: Maps, tracked: set<Pid>, es: seq<Event>, key: Pid, cpu: nat)
    requires Possible(start, tracked, es) && key in tracked && cpu < |start.prev|
    ensures Balanced(start, tracked, es, key, cpu)
    decreases |es|
  {
    if es == [] {
      assert start.accum[key][cpu] == ZERO;
      CongRefl(0);
    } else {
      var n := |es| - 1;
      PossibleBefore(start, tracked, es);
      ChargedExactly(start, tracked, es[..n], key, cpu);
      if es[n].Switch? {
        BalancedSwitch(start, tracked, es, key, cpu);
      } else if es[n].ReadClear? {
        BalancedRead(start, tracked, es, key, cpu);
      }
    }
  }

  lemma SwitchEffect(m: Maps, c: nat, pid: Pid, reading: Option<Value>, key: Pid, cpu: nat)
    requires Shaped(m) && c < |m.prev| && cpu < |m.prev| && key in m.accum
    requires pid in m.filter ==> m.filter[pid] in m.accum
    ensures var t := Switched(m, c, pid, reading);
            var hit := c == cpu && reading.Some? && pid in m.filter;
            && t.filter == m.filter
            && t.prev[cpu].counter == (if hit then reading.value.counter else m.prev[cpu].counter)
            && t.accum[key][cpu].counter ==
               (if hit && m.filter[pid] == key
                then Add64(m.accum[key][cpu].counter, Sub64(reading.value.counter, m.prev[cpu].counter))
                else m.accum[key][cpu].counter)
  {}

  lemma {:induction false} ChargedSplits(first: int, tracked: set<Pid>, es: seq<Event>, key: Pid, cpu: nat)
    ensures Charged(first, tracked, es, key, cpu)
            == Ran(first, tracked, es, key, cpu) + Stray(first, tracked, es, key, cpu)
    decreases |es|
  {
    if es != [] { ChargedSplits(first, tracked, es[..|es| - 1], key, cpu); }
  }

  // ----- When a key's count is exact -----

  /** The counter of `cpu` never falls from one switch to the next. */
  ghost predicate Rising(first: int, es: seq<Event>, cpu: nat) {
    forall i :: 0 <= i < |es| && SwitchOn(es[i], cpu) ==> LastSwitch(first, es[..i], cpu) <= es[i].reading.value.counter
  }

  /** Switch `j` ends an interval of an uncounted task on `cpu` during which the counter moved. */
  ghost predicate StrangerRan(first: int, tracked: set<Pid>, es: seq<Event>, cpu: nat, j: nat)
    requires j < |es|
  {
    && SwitchOn(es[j], cpu) && Owner(tracked, es[..j], es[j].pid).None?
    && es[j].reading.value.counter != LastSwitch(first, es[..j], cpu)
  }

  /** Switch `k` on `cpu` is charged to some key. */
  ghost predicate IsCharged(tracked: set<Pid>, es: seq<Event>, cpu: nat, k: nat)
    requires k < |es|
  {
    SwitchOn(es[k], cpu) && Owner(tracked, es[..k], es[k].pid).Some?
  }

  /** An uncounted task has run on `cpu` since the last charged switch. */
  ghost predicate Behind(first: int, tracked: set<Pid>, es: seq<Event>, cpu: nat) {
    exists j: nat :: j < |es| && StrangerRan(first, tracked, es, cpu, j)
                     && forall k: nat :: j < k < |es| ==> !IsCharged(tracked, es, cpu, k)
  }

  lemma RisingBefore(first: int, es: seq<Event>, cpu: nat, n: nat)
    requires Rising(first, es, cpu) && n <= |es|
    ensures Rising(first, es[..n], cpu)
  {
    forall i | 0 <= i < n && SwitchOn(es[..n][i], cpu)
      ensures LastSwitch(first, es[..n][..i], cpu) <= es[..n][i].reading.value.counter
    {
      assert es[..n][..i] == es[..i];
    }
  }

  /** One more event: a charged switch catches up, an untracked interval that counted falls behind. */
  lemma BehindNext(first: int, tracked: set<Pid>, es: seq<Event>, cpu: nat)
    requires es != []
    ensures var n := |es| - 1;
            Behind(first, tracked, es, cpu) <==>
              StrangerRan(first, tracked, es, cpu, n)
              || (Behind(first, tracked, es[..n], cpu) && !IsCharged(tracked, es, cpu, n))
  {
    hide Owner, LastSwitch;
    var n := |es| - 1;
    var init := es[..n];
    forall j: nat | j < n
      ensures StrangerRan(first, tracked, init, cpu, j) <==> StrangerRan(first, tracked, es, cpu, j)
      ensures IsCharged(tracked, init, cpu, j) <==> IsCharged(tracked, es, cpu, j)
    {
      assert init[..j] == es[..j];
    }
    hide StrangerRan, IsCharged;
    if Behind(first, tracked, init, cpu) && !IsCharged(tracked, es, cpu, n) {
      var j: nat :| j < n && StrangerRan(first, tracked, init, cpu, j)
                    && forall k: nat :: j < k < n ==> !IsCharged(tracked, init, cpu, k);
      assert StrangerRan(first, tracked, es, cpu, j);
    }
    if Behind(first, tracked, es, cpu) && !StrangerRan(first, tracked, es, cpu, n) {
      var j: nat :| j < |es| && StrangerRan(first, tracked, es, cpu, j)
                    && forall k: nat :: j < k < |es| ==> !IsCharged(tracked, es, cpu, k);
      assert StrangerRan(first, tracked, init, cpu, j);
    }
  }

  /** The snapshot is at most as far as the last switch, and lags exactly when an untracked task has run since. */
  lemma {:induction false} LagsIffBehind(first: int, tracked: set<Pid>, es: seq<Event>, cpu: nat)
    requires Rising(first, es, cpu)
    ensures first <= LastCharged(first, tracked, es, cpu) <= LastSwitch(first, es, cpu)
    ensures LastCharged(first, tracked, es, cpu) < LastSwitch(first, es, cpu) <==> Behind(first, tracked, es, cpu)
    decreases |es|
  {
    if es != [] {
      var n := |es| - 1;
      RisingBefore(first, es, cpu, n);
      LagsIffBehind(first, tracked, es[..n], cpu);
      BehindNext(first, tracked, es, cpu);
    }
  }

  /** No uncounted task ran on `cpu` between the charged switch before an interval of `key` and the interval. */
  ghost predicate Undisturbed(first: int, tracked: set<Pid>, es: seq<Event>, key: Pid, cpu: nat) {
    forall i: nat :: i < |es| && Pays(tracked, es[..i + 1], key, cpu) ==> !Behind(first, tracked, es[..i], cpu)
  }

  lemma UndisturbedNext(first: int, tracked: set<Pid>, es: seq<Event>, key: Pid, cpu: nat)
    requires es != []
    ensures var n := |es| - 1;
            Undisturbed(first, tracked, es, key, cpu) <==>
              Undisturbed(first, tracked, es[..n], key, cpu)
              && (Pays(tracked, es, key, cpu) ==> !Behind(first, tracked, es[..n], cpu))
  {
    var n := |es| - 1;
    assert es[..n + 1] == es;
    hide Pays, Behind;
    if Undisturbed(first, tracked, es, key, cpu) {
      forall i: nat | i < n && Pays(tracked, es[..n][..i + 1], key, cpu)
        ensures !Behind(first, tracked, es[..n][..i], cpu)
      {
        assert es[..n][..i + 1] == es[..i + 1] && es[..n][..i] == es[..i];
        assert Pays(tracked, es[..i + 1], key, cpu);
      }
    }
    if Undisturbed(first, tracked, es[..n], key, cpu)
       && (Pays(tracked, es, key, cpu) ==> !Behind(first, tracked, es[..n], cpu)) {
      forall i: nat | i < |es| && Pays(tracked, es[..i + 1], key, cpu)
        ensures !Behind(first, tracked, es[..i], cpu)
      {
        if i < n {
          assert es[..n][..i + 1] == es[..i + 1] && es[..n][..i] == es[..i];
          assert Pays(tracked, es[..n][..i + 1], key, cpu);
        }
      }
    }
  }

  /** Stray time never cancels and never reaches a whole turn of the counter, so it vanishes exactly when every
      interval of the key is undisturbed. */
  lemma {:induction false} StrayIffDisturbed(first: int, tracked: set<Pid>, es: seq<Event>, key: Pid, cpu: nat)
    requires Rising(first, es, cpu)
    ensures 0 <= Stray(first, tracked, es, key, cpu) <= LastCharged(first, tracked, es, cpu) - first
    ensures Stray(first, tracked, es, key, cpu) == 0 <==> Undisturbed(first, tracked, es, key, cpu)
    decreases |es|
  {
    if es != [] {
      var n := |es| - 1;
      RisingBefore(first, es, cpu, n);
      StrayIffDisturbed(first, tracked, es[..n], key, cpu);
      LagsIffBehind(first, tracked, es[..n], cpu);
      UndisturbedNext(first, tracked, es, key, cpu);
      hide Undisturbed, Behind;
    }
  }

  /** A key's count is what its tasks ran, plus the stray time in front of their intervals. */
  lemma CountIsRanAndStray(start: Maps, tracked: set<Pid>, es: seq<Event>, key: Pid, cpu: nat)
    requires Possible(start, tracked, es) && key in tracked && cpu < |start.prev|
    ensures var s := Run(start, es);
            var first := start.prev[cpu].counter;
            Cong(Reported(s.rows, key, cpu) + s.maps.accum[key][cpu].counter,
                 Ran(first, tracked, es, key, cpu) + Stray(first, tracked, es, key, cpu))
  {
    ChargedExactly(start, tracked, es, key, cpu);
    ChargedSplits(start.prev[cpu].counter, tracked, es, key, cpu);
  }

  /** On a counter that does not fall, a key's count is exactly what its tasks ran if and only if no uncounted task ran
      on the CPU between the charged switch before one of their intervals and the interval. */
  lemma ExactIffUndisturbed(start: Maps, tracked: set<Pid>, es: seq<Event>, key: Pid, cpu: nat)
    requires Possible(start, tracked, es) && key in tracked && cpu < |start.prev|
    requires Rising(start.prev[cpu].counter, es, cpu)
    ensures var s := Run(start, es);
            var first := start.prev[cpu].counter;
            Cong(Reported(s.rows, key, cpu) + s.maps.accum[key][cpu].counter, Ran(first, tracked, es, key, cpu))
            <==> Undisturbed(first, tracked, es, key, cpu)
  {
    hide Run, Reported, Ran, Stray, Undisturbed, Rising, Cong, LastCharged;
    var s := Run(start, es);
    var first := start.prev[cpu].counter;
    var stray := Stray(first, tracked, es, key, cpu);
    CountIsRanAndStray(start, tracked, es, key, cpu);
    CongOfSum(Reported(s.rows, key, cpu) + s.maps.accum[key][cpu].counter, Ran(first, tracked, es, key, cpu), stray);
    StrayIffDisturbed(first, tracked, es, key, cpu);
    ChargedIsWord(first, tracked, es, cpu);
    SmallIsZero(stray);
  }

  lemma {:induction false} ChargedIsWord(first: u64, tracked: set<Pid>, es: seq<Event>, cpu: nat)
    ensures 0 <= LastCharged(first, tracked, es, cpu) < TWO64
    decreases |es|
  {
    if es != [] { ChargedIsWord(first, tracked, es[..|es| - 1], cpu); }
  }

  lemma SmallIsZero(x: int)
    requires 0 <= x < TWO64
    ensures Cong(x, 0) <==> x == 0
  {
    CongIsSameWord(x, 0);
    RemainderUnique(x, TWO64, 0, x);
    RemainderUnique(0, TWO64, 0, 0);
  }

  lemma CongOfSum(a: int, b: int, c: int)
    requires Cong(a, b + c)
    ensures Cong(a, b) <==> Cong(c, 0)
  {
    CongIsSameWord(a, b + c);
    CongIsSameWord(a, b);
    CongIsSameWord(c, 0);
  }

  /** When only counted tasks run on the CPU there is no stray time. */
  lemma {:induction false} NoStrayWithoutStrangers(first: int, tracked: set<Pid>, es: seq<Event>, key: Pid, cpu: nat)
    requires forall i :: 0 <= i < |es| && SwitchOn(es[i], cpu) ==> Owner(tracked, es[..i], es[i].pid).Some?
    ensures Stray(first, tracked, es, key, cpu) == 0
    ensures LastSwitch(first, es, cpu) == LastCharged(first, tracked, es, cpu)
    decreases |es|
  {
    if es != [] {
      var n := |es| - 1;
      forall i | 0 <= i < n && SwitchOn(es[..n][i], cpu)
        ensures Owner(tracked, es[..n][..i], es[..n][i].pid).Some?
      {
        assert es[..n][..i] == es[..i];
      }
      NoStrayWithoutStrangers(first, tracked, es[..n], key, cpu);
    }
  }

  /** An untracked task that ran before a tracked one is charged to it: 150 instead of 50. */
  lemma StrangerIsCharged()
    ensures var start := Maps([ZERO], map[7 := [ZERO]], map[7 := 7]);
            var es := [Switch(0, 9, Some(Value(100, 0, 0))), Switch(0, 7, Some(Value(150, 0, 0)))];
            && Possible(start, {7}, es)
            && Run(start, es).maps.accum[7][0].counter == 150
            && Ran(0, {7}, es, 7, 0) == 50
  {
    var start := Maps([ZERO], map[7 := [ZERO]], map[7 := 7]);
    var one := [Switch(0, 9, Some(Value(100, 0, 0)))];
    var es := one + [Switch(0, 7, Some(Value(150, 0, 0)))];
    assert es == [Switch(0, 9, Some(Value(100, 0, 0))), Switch(0, 7, Some(Value(150, 0, 0)))];
    assert es[..1] == one && one[..0] == [];
    assert ZeroRow(1) == [ZERO];
    assert Possible(start, {7}, []);
    assert Possible(start, {7}, one);
    assert Possible(start, {7}, es);
    FilterIsOwners(start, {7}, one);
    FilterIsOwners(start, {7}, []);
    assert Run(start, one).maps == start;
    assert LastSwitch(0, one, 0) == 100;
    assert Ran(0, {7}, one, 7, 0) == 0;
  }

  // ----- Conservation over all keys -----

  ghost function Counters(m: Maps, cpu: nat): map<Pid, int>
    requires Shaped(m) && cpu < |m.prev|
  {
    map k | k in m.accum :: m.accum[k][cpu].counter
  }

  /** Sum of all counts reported on `cpu`. */
  ghost function ReportedOn(rows: seq<Row>, cpu: nat): int {
    if rows == [] then 0
    else ReportedOn(rows[..|rows| - 1], cpu) + (if rows[|rows| - 1].cpu == cpu then rows[|rows| - 1].count else 0)
  }

  lemma {:induction false} ReportedOnConcat(a: seq<Row>, b: seq<Row>, cpu: nat)
    ensures ReportedOn(a + b, cpu) == ReportedOn(a, cpu) + ReportedOn(b, cpu)
    decreases |b|
  {
    if b == [] {
      assert a + b == a;
    } else {
      ReportedOnConcat(a, b[..|b| - 1], cpu);
      assert (a + b)[..|a + b| - 1] == a + b[..|b| - 1];
    }
  }

  lemma ReportedOnMore(rows: seq<Row>, r: Row, cpu: nat)
    ensures ReportedOn(rows + [r], cpu) == ReportedOn(rows, cpu) + if r.cpu == cpu then r.count else 0
  {
    assert (rows + [r])[..|rows|] == rows;
  }

  lemma {:induction false} RowsFromOn(tid: Pid, values: seq<Value>, n: nat, cpu: nat)
    requires n <= |values|
    ensures ReportedOn(RowsFrom(tid, values, n), cpu) == if cpu < n then values[cpu].counter else 0
  {
    if n > 0 {
      RowsFromOn(tid, values, n - 1, cpu);
      var v, rest := values[n - 1], RowsFrom(tid, values, n - 1);
      var last := Row(tid, n - 1, v.counter, v.enabled, v.running);
      ReportedOnMore(rest, last, cpu);
      assert RowsFrom(tid, values, n) == rest + if v.counter == 0 then [] else [last];
      hide ReportedOn, RowsFrom;
      assert rest + [] == rest;
    }
  }

  lemma TotalOfRow(m: Maps, key: Pid, row: seq<Value>, cpu: nat)
    requires Shaped(m) && cpu < |m.prev| && key in m.accum && |row| == |m.prev|
    ensures Total(Counters(m.(accum := m.accum[key := row]), cpu))
            == Total(Counters(m, cpu)) - m.accum[key][cpu].counter + row[cpu].counter
  {
    assert Counters(m.(accum := m.accum[key := row]), cpu) == Counters(m, cpu)[key := row[cpu].counter];
    TotalUpdate(Counters(m, cpu), key, row[cpu].counter);
  }

  /** Moving one row from the map to the caller keeps the total. */
  lemma DrainOne(m: Maps, rows: seq<Row>, tid: Pid, cpu: nat)
    requires Shaped(m) && cpu < |m.prev| && tid in m.accum
    ensures ReportedOn(rows + RowsFrom(tid, m.accum[tid], |m.accum[tid]|), cpu)
            + Total(Counters(m.(accum := m.accum[tid := ZeroRow(|m.prev|)]), cpu))
            == ReportedOn(rows, cpu) + Total(Counters(m, cpu))
  {
    RowsFromOn(tid, m.accum[tid], |m.accum[tid]|, cpu);
    ReportedOnConcat(rows, RowsFrom(tid, m.accum[tid], |m.accum[tid]|), cpu);
    TotalOfRow(m, tid, ZeroRow(|m.prev|), cpu);
  }

  lemma {:induction false} DrainConservesTotal(m: Maps, pids: seq<Pid>, n: nat, cpu: nat)
    requires Shaped(m) && n <= |pids| && cpu < |m.prev|
    ensures var (after, rows) := Drained(m, pids, n);
            ReportedOn(rows, cpu) + Total(Counters(after, cpu)) == Total(Counters(m, cpu))
  {
    if n > 0 {
      DrainConservesTotal(m, pids, n - 1, cpu);
      var d := Drained(m, pids, n - 1);
      if pids[n - 1] in d.0.accum { DrainOne(d.0, d.1, pids[n - 1], cpu); }
    }
  }

  /** On a CPU, everything reported plus everything still stored is how far the snapshot moved. */
  ghost predicate ConservedOn(start: Maps, s: Sys, cpu: nat)
    requires Shaped(s.maps) && cpu < |start.prev| == |s.maps.prev|
  {
    Cong(ReportedOn(s.rows, cpu) + Total(Counters(s.maps, cpu)), s.maps.prev[cpu].counter - start.prev[cpu].counter)
  }

  lemma ConservedSwitch(start: Maps, s: Sys, c: nat, pid: Pid, reading: Option<Value>, cpu: nat)
    requires Shaped(s.maps) && cpu < |start.prev| == |s.maps.prev| && c < |start.prev|
    requires pid in s.maps.filter ==> s.maps.filter[pid] in s.maps.accum
    requires ConservedOn(start, s, cpu)
    ensures ConservedOn(start, s.(maps := Switched(s.maps, c, pid, reading)), cpu)
  {
    var m, t := s.maps, Switched(s.maps, c, pid, reading);
    if pid in m.filter && reading.Some? {
      var key := m.filter[pid];
      TotalOfRow(m, key, t.accum[key], cpu);
      assert Counters(t, cpu) == Counters(m.(accum := m.accum[key := t.accum[key]]), cpu);
      SwitchEffect(m, c, pid, reading, key, cpu);
      if c == cpu {
        var others := ReportedOn(s.rows, cpu) + Total(Counters(m, cpu)) - m.accum[key][cpu].counter;
        ChargeCong(others, m.accum[key][cpu].counter, reading.value.counter, m.prev[cpu].counter,
                   m.prev[cpu].counter - start.prev[cpu].counter);
      }
    }
  }

  /** In every run the counts of a CPU are conserved. */
  lemma {:induction false} Conserved(start: Maps, tracked: set<Pid>, es: seq<Event>, cpu: nat)
    requires Possible(start, tracked, es) && cpu < |start.prev|
    ensures ConservedOn(start, Run(start, es), cpu)
    decreases |es|
  {
    if es == [] {
      assert forall k :: k in start.accum ==> start.accum[k][cpu] == ZERO;
      TotalZero(Counters(start, cpu));
      CongRefl(0);
    } else {
      var n := |es| - 1;
      var before, e := es[..n], es[n];
      assert e in es;
      PossibleBefore(start, tracked, es);
      Conserved(start, tracked, before, cpu);
      var s := Run(start, before);
      match e
      case Switch(c, pid, reading) =>
        if pid in s.maps.filter { FilterHasRows(start, tracked, before, pid); }
        ConservedSwitch(start, s, c, pid, reading, cpu);
      case NewTask(parent, child) =>
        assert Counters(Forked(s.maps, parent, child), cpu) == Counters(s.maps, cpu);
      case ReadClear(pids) =>
        DrainKeepsFilter(s.maps, pids, |pids|);
        DrainConservesTotal(s.maps, pids, |pids|, cpu);
        ReportedOnConcat(s.rows, Drained(s.maps, pids, |pids|).1, cpu);
    }
  }
}
