/** Per-cgroup BPF counting: pmu/bpf/sched_cgroup.bpf.c and the cgroup half of
    pmu/bpf/perf_counter_bpf.cpp. Unlike per-process counting, every switch moves the snapshot, so each
    interval goes to the process that ran it, once for each of its first ten ancestor cgroups that is
    counted. */
module SchedCgroup {
  import opened Words
  import opened BpfValue

  type Id = int

  const MAX_LEVELS: nat := 10
  const MAX_EVENTS: nat := 128
  const MAX_ENTRIES: nat := 102400

  /** num_events, num_cpus and the cgrp_idx map from cgroup id to internal index. */
  datatype Config = Config(numEvents: nat, numCpus: nat, index: map<Id, nat>)

  /** No key of index `g` wraps in 32-bit arithmetic. */
  ghost predicate InRange(cfg: Config, g: nat) {
    Cell(cfg, g, 0) + cfg.numEvents <= TWO32
  }

  /** Flattened keys do not overflow the 32-bit arithmetic that forms them. */
  ghost predicate Sane(cfg: Config) {
    && 0 < cfg.numEvents <= MAX_EVENTS
    && cfg.numEvents * cfg.numCpus <= TWO32
    && forall id :: id in cfg.index ==> InRange(cfg, cfg.index[id])
  }

  /** Key of cgroup `g` and event `e` in cgrp_readings. */
  function Cell(cfg: Config, g: nat, e: nat): nat { g * cfg.numEvents + e }

  /** Key of event `e` on `cpu` in the perf event array. */
  function Slot(cfg: Config, e: nat, cpu: nat): nat { e * cfg.numCpus + cpu }

  lemma FlattenedUnique(n: nat, a: nat, b: nat, c: nat, d: nat)
    requires b < n && d < n && a * n + b == c * n + d
    ensures a == c && b == d
  {
    RemainderUnique(a * n + b, n, a, b);
    RemainderUnique(c * n + d, n, c, d);
  }

  /** Neither flattened key scheme aliases. */
  lemma KeysNeverAlias(cfg: Config, a: nat, b: nat, c: nat, d: nat)
    requires Sane(cfg)
    ensures b < cfg.numEvents && d < cfg.numEvents && Cell(cfg, a, b) == Cell(cfg, c, d) ==> a == c && b == d
    ensures b < cfg.numCpus && d < cfg.numCpus && Slot(cfg, a, b) == Slot(cfg, c, d) ==> a == c && b == d
  {
    if b < cfg.numEvents && d < cfg.numEvents && Cell(cfg, a, b) == Cell(cfg, c, d) {
      FlattenedUnique(cfg.numEvents, a, b, c, d);
    }
    if b < cfg.numCpus && d < cfg.numCpus && Slot(cfg, a, b) == Slot(cfg, c, d) {
      FlattenedUnique(cfg.numCpus, a, b, c, d);
    }
  }

  // ----- Which cgroups an interval counts for -----

  function Levels(ancestors: seq<Id>): seq<Id> {
    if |ancestors| <= MAX_LEVELS then ancestors else ancestors[..MAX_LEVELS]
  }

  function Indices(index: map<Id, nat>, ids: seq<Id>): seq<nat> {
    if ids == [] then []
    else
      var n := |ids| - 1;
      Indices(index, ids[..n]) + (if ids[n] in index then [index[ids[n]]] else [])
  }

  /** How often an interval of a task with these ancestors is added to the cells of index `g`. */
  ghost function Weight(cfg: Config, ancestors: seq<Id>, g: nat): nat {
    multiset(Indices(cfg.index, Levels(ancestors)))[g]
  }

  ghost function Repeat(v: Value, d: Value, n: nat): Value {
    if n == 0 then v else Plus(Repeat(v, d, n - 1), d)
  }

  /** `w` times `d`. */
  ghost function Gain(w: nat, d: int): int {
    if w == 0 then 0 else Gain(w - 1, d) + d
  }

  lemma GainOnce(d: int)
    ensures Gain(1, d) == d && Gain(0, d) == 0
  {
    assert Gain(1, d) == Gain(0, d) + d;
  }

  lemma {:induction false} RepeatCong(v: Value, cur: Value, prev: Value, n: nat)
    ensures Cong(Repeat(v, Delta(cur, prev), n).counter, v.counter + Gain(n, cur.counter - prev.counter))
  {
    if n == 0 {
      CongRefl(v.counter);
    } else {
      RepeatCong(v, cur, prev, n - 1);
      var acc := Repeat(v, Delta(cur, prev), n - 1);
      ChargeCong(0, acc.counter, cur.counter, prev.counter,
                 v.counter + Gain(n - 1, cur.counter - prev.counter));
    }
  }

  // ----- The kernel maps and the programs on them -----

  /** Per CPU: snapshot of each event, and accumulated value of each cell. */
  datatype Maps = Maps(prev: seq<seq<Value>>, readings: seq<seq<Value>>)

  ghost predicate Shaped(cfg: Config, m: Maps) {
    && |m.prev| == |m.readings| == cfg.numCpus
    && (forall c :: 0 <= c < cfg.numCpus ==> |m.prev[c]| == MAX_ENTRIES && |m.readings[c]| == MAX_ENTRIES)
  }

  /** The effect of one run of the switch program on `cpu`; `vals[e]` is None on a read error. */
  ghost predicate Counted(cfg: Config, m: Maps, cpu: nat, ancestors: seq<Id>, vals: seq<Option<Value>>, t: Maps)
    requires Sane(cfg) && Shaped(cfg, m) && cpu < cfg.numCpus && |vals| == cfg.numEvents
  {
    && Shaped(cfg, t)
    && (forall c :: 0 <= c < cfg.numCpus && c != cpu ==> t.prev[c] == m.prev[c] && t.readings[c] == m.readings[c])
    && (forall e :: 0 <= e < cfg.numEvents ==>
          t.prev[cpu][e] == if vals[e].Some? then vals[e].value else m.prev[cpu][e])
    && (forall g: nat, e: nat :: e < cfg.numEvents && Cell(cfg, g, e) < MAX_ENTRIES ==>
          t.readings[cpu][Cell(cfg, g, e)] ==
          if vals[e].None? then m.readings[cpu][Cell(cfg, g, e)]
          else Repeat(m.readings[cpu][Cell(cfg, g, e)], Delta(vals[e].value, m.prev[cpu][e]),
                      Weight(cfg, ancestors, g)))
  }

  /** Reading key `key` zeroes it on every CPU and touches nothing else. */
  ghost predicate Cleared(cfg: Config, m: Maps, key: nat, t: Maps)
    requires Shaped(cfg, m)
  {
    && Shaped(cfg, t) && t.prev == m.prev
    && (forall c, k :: 0 <= c < cfg.numCpus && 0 <= k < MAX_ENTRIES ==>
          t.readings[c][k] == if k == key then ZERO else m.readings[c][k])
  }

  /** The key a read uses: `known` is how many events user space knows by now. */
  function ReadKey(g: nat, known: nat, e: nat): nat { g * known + e }

  lemma ProductsDiffer(g: nat, a: nat, b: nat)
    ensures g * a == g * b <==> g == 0 || a == b
  {
    if a < b {
      assert g * b == g * a + g * (b - a);
    } else {
      assert g * a == g * b + g * (a - b);
    }
  }

  /** It is the key the switch program uses exactly for index 0, or when user space knows as many events as the program
      was loaded with. */
  lemma ReadKeyIff(cfg: Config, g: nat, known: nat, e: nat)
    ensures ReadKey(g, known, e) == Cell(cfg, g, e) <==> g == 0 || known == cfg.numEvents
  {
    ProductsDiffer(g, known, cfg.numEvents);
  }

  class Program {
    const numEvents: nat
    const numCpus: nat
    var index: map<Id, nat>
    var events: map<nat, (nat, nat)>
    var prev: seq<seq<Value>>
    var readings: seq<seq<Value>>

    constructor (numEvents: nat, numCpus: nat)
      ensures this.numEvents == numEvents && this.numCpus == numCpus && index == map[] && events == map[]
      ensures Shaped(Cfg(), Now())
      ensures Now() == Maps(seq(numCpus, _ => ZeroRow(MAX_ENTRIES)), seq(numCpus, _ => ZeroRow(MAX_ENTRIES)))
    {
      this.numEvents, this.numCpus := numEvents, numCpus;
      index, events := map[], map[];
      prev := seq(numCpus, _ => seq(MAX_ENTRIES, _ => ZERO));
      readings := seq(numCpus, _ => seq(MAX_ENTRIES, _ => ZERO));
    }

    ghost function Cfg(): Config
      reads `index
    {
      Config(numEvents, numCpus, index)
    }

    ghost function Now(): Maps
      reads `prev, `readings
    {
      Maps(prev, readings)
    }

    /** The perf event array holds, under each flattened key, the counter of that event and CPU. */
    ghost predicate Installed(e: nat, cpu: nat)
      reads `index, `events
    {
      Slot(Cfg(), e, cpu) in events && events[Slot(Cfg(), e, cpu)] == (e, cpu)
    }

    /** Installing one counter disturbs no other. */
    method InstallEvent(e: nat, cpu: nat)
      requires Sane(Cfg()) && e < numEvents && cpu < numCpus
      modifies this
      ensures Cfg() == old(Cfg()) && Now() == old(Now()) && Installed(e, cpu)
      ensures forall f: nat, c: nat :: c < numCpus && old(Installed(f, c)) ==> Installed(f, c)
    {
      var key := e * numCpus + cpu;
      forall f: nat, c: nat | c < numCpus && (f, c) != (e, cpu)
        ensures Slot(Cfg(), f, c) != key
      {
        KeysNeverAlias(Cfg(), e, cpu, f, c);
      }
      events := events[key := (e, cpu)];
    }

    method GetCgroupIdx(ancestors: seq<Id>) returns (cgrps: seq<nat>)
      ensures cgrps == Indices(index, Levels(ancestors))
    {
      cgrps := [];
      var i := 0;
      while i < |ancestors| && i < MAX_LEVELS
        invariant 0 <= i <= |Levels(ancestors)|
        invariant cgrps == Indices(index, Levels(ancestors)[..i])
      {
        if ancestors[i] in index {
          cgrps := cgrps + [index[ancestors[i]]];
        }
        assert Levels(ancestors)[..i + 1][..i] == Levels(ancestors)[..i];
        i := i + 1;
      }
      assert Levels(ancestors)[..i] == Levels(ancestors);
    }

    /** Add `delta` to the cell of event `e` and index `cgrp`, if the map has that key. */
    method AddToCell(cpu: nat, e: nat, cgrp: nat, delta: Value)
      requires Sane(Cfg()) && Shaped(Cfg(), Now()) && cpu < numCpus && e < numEvents && InRange(Cfg(), cgrp)
      modifies `readings
      ensures Shaped(Cfg(), Now())
      ensures forall c :: 0 <= c < numCpus && c != cpu ==> readings[c] == old(readings[c])
      ensures forall g: nat, f: nat :: f < numEvents && Cell(Cfg(), g, f) < MAX_ENTRIES ==>
                readings[cpu][Cell(Cfg(), g, f)] ==
                if g == cgrp && f == e then Plus(old(readings[cpu][Cell(Cfg(), g, f)]), delta)
                else old(readings[cpu][Cell(Cfg(), g, f)])
    {
      ghost var cfg := Cfg();
      var key := (cgrp * numEvents + e) % TWO32;
      RemainderUnique(Cell(cfg, cgrp, e), TWO32, 0, Cell(cfg, cgrp, e));
      if key < MAX_ENTRIES {
        readings := readings[cpu := readings[cpu][key := Plus(readings[cpu][key], delta)]];
      }
      forall g: nat, f: nat | f < numEvents && Cell(cfg, g, f) == key
        ensures g == cgrp && f == e
      {
        KeysNeverAlias(cfg, g, f, cgrp, e);
      }
    }

    /** Add `delta` to the cells of event `e` for every index in `cgrps`. */
    method AddToCgroups(cpu: nat, e: nat, cgrps: seq<nat>, delta: Value)
      requires Sane(Cfg()) && Shaped(Cfg(), Now()) && cpu < numCpus && e < numEvents
      requires forall g :: g in cgrps ==> InRange(Cfg(), g)
      modifies `readings
      ensures Shaped(Cfg(), Now())
      ensures forall c :: 0 <= c < numCpus && c != cpu ==> readings[c] == old(readings[c])
      ensures forall g: nat, f: nat :: f < numEvents && Cell(Cfg(), g, f) < MAX_ENTRIES ==>
                readings[cpu][Cell(Cfg(), g, f)] ==
                if f != e then old(readings[cpu][Cell(Cfg(), g, f)])
                else Repeat(old(readings[cpu][Cell(Cfg(), g, f)]), delta, multiset(cgrps)[g])
    {
      ghost var cfg := Cfg();
      var c := 0;
      while c < |cgrps|
        invariant 0 <= c <= |cgrps| && Cfg() == cfg && Shaped(cfg, Now())
        invariant forall k :: 0 <= k < numCpus && k != cpu ==> readings[k] == old(readings[k])
        invariant forall g: nat, f: nat :: f < numEvents && Cell(cfg, g, f) < MAX_ENTRIES ==>
                readings[cpu][Cell(cfg, g, f)] ==
                if f != e then old(readings[cpu][Cell(cfg, g, f)])
                else Repeat(old(readings[cpu][Cell(cfg, g, f)]), delta, multiset(cgrps[..c])[g])
      {
        assert cgrps[c] in cgrps;
        assert cgrps[..c + 1] == cgrps[..c] + [cgrps[c]];
        AddToCell(cpu, e, cgrps[c], delta);
        c := c + 1;
      }
      assert cgrps[..c] == cgrps;
    }

    /** The switch program: snapshot every event and charge the running task's cgroups. `hw(e, c)` is
        the counter of event `e` on CPU `c` at this moment. */
    method CgroupCount(cpu: nat, ancestors: seq<Id>, hw: (nat, nat) -> Option<Value>)
      requires Sane(Cfg()) && Shaped(Cfg(), Now()) && cpu < numCpus
      requires forall e: nat :: e < numEvents ==> Installed(e, cpu)
      modifies `prev, `readings
      ensures Counted(Cfg(), old(Now()), cpu, ancestors,
                      seq(numEvents, e requires 0 <= e < numEvents => hw(e, cpu)), Now())
    {
      var cgrps := GetCgroupIdx(ancestors);
      ghost var cfg := Cfg();
      IndicesInRange(cfg, Levels(ancestors));
      ghost var vals := seq(numEvents, e requires 0 <= e < numEvents => hw(e, cpu));
      var idx := 0;
      while idx < MAX_EVENTS && idx != numEvents
        invariant Cfg() == cfg && 0 <= idx <= numEvents && Shaped(cfg, Now())
        invariant forall e: nat :: e < numEvents ==> Installed(e, cpu)
        invariant forall c :: 0 <= c < numCpus && c != cpu ==>
                    prev[c] == old(prev[c]) && readings[c] == old(readings[c])
        invariant forall e :: 0 <= e < numEvents ==>
            prev[cpu][e] == if e < idx && vals[e].Some? then vals[e].value else old(prev[cpu][e])
        invariant forall g: nat, e: nat :: e < numEvents && Cell(cfg, g, e) < MAX_ENTRIES ==>
            readings[cpu][Cell(cfg, g, e)] ==
            if e >= idx || vals[e].None? then old(readings[cpu][Cell(cfg, g, e)])
            else Repeat(old(readings[cpu][Cell(cfg, g, e)]), Delta(vals[e].value, old(prev[cpu][e])),
                        Weight(cfg, ancestors, g))
      {
        assert Installed(idx, cpu);
        var slot := events[idx * numCpus + cpu];
        var val := hw(slot.0, slot.1);
        if val.Some? {
          var delta := Delta(val.value, prev[cpu][idx]);
          AddToCgroups(cpu, idx, cgrps, delta);
          prev := prev[cpu := prev[cpu][idx := val.value]];
        }
        idx := idx + 1;
      }
    }

    /** Report the cell of every CPU and zero it; a key outside the map reports nothing. The key is formed with the
        number of events user space knows, not with the program's numEvents. */
    method ReadBpfCgroup(g: nat, e: nat, known: nat) returns (data: seq<u64>)
      requires Shaped(Cfg(), Now())
      modifies `readings
      ensures ReadKey(g, known, e) >= MAX_ENTRIES ==> data == [] && Now() == old(Now())
      ensures ReadKey(g, known, e) < MAX_ENTRIES ==>
                && Cleared(Cfg(), old(Now()), ReadKey(g, known, e), Now())
                && |data| == numCpus
                && forall c :: 0 <= c < numCpus ==> data[c] == old(readings[c][ReadKey(g, known, e)].counter)
    {
      data := [];
      var key := g * known + e;
      if key >= MAX_ENTRIES { return; }
      var cpu := 0;
      while cpu < numCpus
        invariant 0 <= cpu <= numCpus && |data| == cpu
        invariant forall c :: 0 <= c < cpu ==> data[c] == readings[c][key].counter
        invariant readings == old(readings)
      {
        data := data + [readings[cpu][key].counter];
        cpu := cpu + 1;
      }
      readings := seq(numCpus, c requires 0 <= c < numCpus && c < |readings| && key < |readings[c]| reads this =>
        readings[c][key := ZERO]);
    }
  }

  lemma KnownInRange(cfg: Config, id: Id)
    requires Sane(cfg) && id in cfg.index
    ensures InRange(cfg, cfg.index[id])
  {}

  lemma {:induction false} IndicesInRange(cfg: Config, ids: seq<Id>)
    requires Sane(cfg)
    ensures forall g :: g in Indices(cfg.index, ids) ==> InRange(cfg, g)
    decreases |ids|
  {
    if ids != [] {
      var n := |ids| - 1;
      IndicesInRange(cfg, ids[..n]);
      if ids[n] in cfg.index { KnownInRange(cfg, ids[n]); }
    }
  }

  // ----- Runs -----

  datatype Event =
    | Switch(cpu: nat, ancestors: seq<Id>, vals: seq<Option<Value>>)
    | ReadClear(g: nat, e: nat)

  ghost predicate Fits(cfg: Config, ev: Event) {
    match ev
    case Switch(cpu, _, vals) => cpu < cfg.numCpus && |vals| == cfg.numEvents
    case ReadClear(g, e) => e < cfg.numEvents && Cell(cfg, g, e) < MAX_ENTRIES
  }

  ghost predicate Step(cfg: Config, m: Maps, ev: Event, t: Maps)
    requires Sane(cfg) && Shaped(cfg, m) && Fits(cfg, ev)
  {
    match ev
    case Switch(cpu, ancestors, vals) => Counted(cfg, m, cpu, ancestors, vals, t)
    case ReadClear(g, e) => Cleared(cfg, m, Cell(cfg, g, e), t)
  }

  /** `ms` are the states a run visits: it starts from zeroed maps and takes `es` one by one. */
  ghost predicate Runs(cfg: Config, ms: seq<Maps>, es: seq<Event>) {
    && Sane(cfg) && |ms| == |es| + 1
    && (forall i :: 0 <= i < |ms| ==> Shaped(cfg, ms[i]))
    && (forall i :: 0 <= i < |es| ==> Fits(cfg, es[i]) && Step(cfg, ms[i], es[i], ms[i + 1]))
    && (forall c :: 0 <= c < cfg.numCpus ==> ms[0].prev[c] == ms[0].readings[c] == ZeroRow(MAX_ENTRIES))
  }

  predicate ReadingOf(ev: Event, e: nat, cpu: nat) {
    ev.Switch? && ev.cpu == cpu && e < |ev.vals| && ev.vals[e].Some?
  }

  /** The last value event `e` showed on `cpu`. */
  ghost function LastRead(es: seq<Event>, e: nat, cpu: nat): int {
    if es == [] then 0
    else
      var n := |es| - 1;
      if ReadingOf(es[n], e, cpu) then es[n].vals[e].value.counter else LastRead(es[..n], e, cpu)
  }

  /** Each interval of event `e` on `cpu`, times its weight for index `g`. */
  ghost function Earned(cfg: Config, es: seq<Event>, g: nat, e: nat, cpu: nat): int {
    if es == [] then 0
    else
      var n := |es| - 1;
      Earned(cfg, es[..n], g, e, cpu) +
      (if ReadingOf(es[n], e, cpu)
       then Gain(Weight(cfg, es[n].ancestors, g), es[n].vals[e].value.counter - LastRead(es[..n], e, cpu)) else 0)
  }

  /** Exactly the intervals whose outgoing task has `id` among its first ten ancestor levels. */
  ghost function EarnedBy(es: seq<Event>, id: Id, e: nat, cpu: nat): int {
    if es == [] then 0
    else
      var n := |es| - 1;
      EarnedBy(es[..n], id, e, cpu) +
      (if ReadingOf(es[n], e, cpu) && id in Levels(es[n].ancestors)
       then es[n].vals[e].value.counter - LastRead(es[..n], e, cpu) else 0)
  }

  /** Counts reported so far for cell (g, e) on `cpu`. */
  ghost function Reported(cfg: Config, ms: seq<Maps>, es: seq<Event>, g: nat, e: nat, cpu: nat): int
    requires Runs(cfg, ms, es) && cpu < cfg.numCpus && e < cfg.numEvents && Cell(cfg, g, e) < MAX_ENTRIES
  {
    if es == [] then 0
    else
      var n := |es| - 1;
      RunsPrefix(cfg, ms, es);
      Reported(cfg, ms[..n + 1], es[..n], g, e, cpu) +
      (if es[n] == ReadClear(g, e) then ms[n].readings[cpu][Cell(cfg, g, e)].counter else 0)
  }

  lemma RunsPrefix(cfg: Config, ms: seq<Maps>, es: seq<Event>)
    requires Runs(cfg, ms, es) && es != []
    ensures Runs(cfg, ms[..|es|], es[..|es| - 1])
  {
    var n := |es| - 1;
    forall i | 0 <= i < n
      ensures Fits(cfg, es[..n][i]) && Step(cfg, ms[..n + 1][i], es[..n][i], ms[..n + 1][i + 1])
    {
      assert Fits(cfg, es[i]) && Step(cfg, ms[i], es[i], ms[i + 1]);
    }
  }

  /** Reported plus stored for a cell is what its index earned, and the snapshot is the last reading. */
  ghost predicate Balanced(cfg: Config, ms: seq<Maps>, es: seq<Event>, g: nat, e: nat, cpu: nat)
    requires Runs(cfg, ms, es) && cpu < cfg.numCpus && e < cfg.numEvents && Cell(cfg, g, e) < MAX_ENTRIES
  {
    && ms[|es|].prev[cpu][e].counter == LastRead(es, e, cpu)
    && Cong(Reported(cfg, ms, es, g, e, cpu) + ms[|es|].readings[cpu][Cell(cfg, g, e)].counter,
            Earned(cfg, es, g, e, cpu))
  }

  lemma BalancedSwitch(cfg: Config, ms: seq<Maps>, es: seq<Event>, g: nat, e: nat, cpu: nat)
    requires Runs(cfg, ms, es) && cpu < cfg.numCpus && e < cfg.numEvents && Cell(cfg, g, e) < MAX_ENTRIES
    requires es != [] && es[|es| - 1].Switch?
    requires Runs(cfg, ms[..|es|], es[..|es| - 1]) && Balanced(cfg, ms[..|es|], es[..|es| - 1], g, e, cpu)
    ensures Balanced(cfg, ms, es, g, e, cpu)
  {
    var n := |es| - 1;
    var ev, m, t, k := es[n], ms[n], ms[n + 1], Cell(cfg, g, e);
    assert Step(cfg, m, ev, t) && ms[..n + 1][n] == m;
    if ReadingOf(ev, e, cpu) {
      var w, cur := Weight(cfg, ev.ancestors, g), ev.vals[e].value;
      RepeatCong(m.readings[cpu][k], cur, m.prev[cpu][e], w);
      CongGain(Reported(cfg, ms[..n + 1], es[..n], g, e, cpu), t.readings[cpu][k].counter, m.readings[cpu][k].counter,
               Gain(w, cur.counter - LastRead(es[..n], e, cpu)), Earned(cfg, es[..n], g, e, cpu));
    }
  }

  lemma CongGain(reported: int, after: int, before: int, gain: int, earned: int)
    requires Cong(after, before + gain) && Cong(reported + before, earned)
    ensures Cong(reported + after, earned + gain)
  {
    CongRefl(reported);
    CongSum(reported, reported, after, before + gain);
    CongRefl(gain);
    CongSum(reported + before, earned, gain, gain);
    CongTrans(reported + after, reported + before + gain, earned + gain);
  }

  /** In every run, for every cell and CPU, nothing is lost and nothing is counted beyond its weight. */
  lemma {:induction false} CellIsEarned(cfg: Config, ms: seq<Maps>, es: seq<Event>, g: nat, e: nat, cpu: nat)
    requires Runs(cfg, ms, es) && cpu < cfg.numCpus && e < cfg.numEvents && Cell(cfg, g, e) < MAX_ENTRIES
    ensures Balanced(cfg, ms, es, g, e, cpu)
    decreases |es|
  {
    if es == [] {
      CongRefl(0);
    } else {
      var n := |es| - 1;
      RunsPrefix(cfg, ms, es);
      CellIsEarned(cfg, ms[..n + 1], es[..n], g, e, cpu);
      assert Step(cfg, ms[n], es[n], ms[n + 1]) && ms[..n + 1][n] == ms[n];
      if es[n].Switch? {
        BalancedSwitch(cfg, ms, es, g, e, cpu);
      } else {
        KeysNeverAlias(cfg, g, e, es[n].g, es[n].e);
      }
    }
  }

  // ----- When the index stands for one cgroup only -----

  /** No other counted cgroup shares the index of `id`. */
  ghost predicate Alone(cfg: Config, id: Id) {
    id in cfg.index && forall other :: other in cfg.index && cfg.index[other] == cfg.index[id] ==> other == id
  }

  lemma {:induction false} WeightOfAlone(cfg: Config, ids: seq<Id>, id: Id)
    requires Alone(cfg, id) && Distinct(ids)
    ensures multiset(Indices(cfg.index, ids))[cfg.index[id]] == if id in ids then 1 else 0
    decreases |ids|
  {
    if ids != [] {
      var n := |ids| - 1;
      WeightOfAlone(cfg, ids[..n], id);
      assert ids == ids[..n] + [ids[n]];
      assert ids[n] !in ids[..n];
    }
  }

  lemma GainOfAlone(cfg: Config, ancestors: seq<Id>, id: Id, d: int)
    requires Alone(cfg, id) && Distinct(ancestors)
    ensures Gain(Weight(cfg, ancestors, cfg.index[id]), d) == if id in Levels(ancestors) then d else 0
  {
    WeightOfAlone(cfg, Levels(ancestors), id);
    GainOnce(d);
  }

  lemma {:induction false} EarnedIsEarnedBy(cfg: Config, es: seq<Event>, id: Id, e: nat, cpu: nat)
    requires Alone(cfg, id)
    requires forall ev :: ev in es && ev.Switch? ==> Distinct(ev.ancestors)
    ensures Earned(cfg, es, cfg.index[id], e, cpu) == EarnedBy(es, id, e, cpu)
    decreases |es|
  {
    if es != [] {
      var n := |es| - 1;
      assert es[n] in es;
      EarnedIsEarnedBy(cfg, es[..n], id, e, cpu);
      if ReadingOf(es[n], e, cpu) {
        GainOfAlone(cfg, es[n].ancestors, id, es[n].vals[e].value.counter - LastRead(es[..n], e, cpu));
      }
    }
  }

  /** Exact attribution: an index of its own makes the cell count precisely its cgroup's intervals. */
  lemma ExactAttribution(cfg: Config, ms: seq<Maps>, es: seq<Event>, id: Id, e: nat, cpu: nat)
    requires Runs(cfg, ms, es) && cpu < cfg.numCpus && e < cfg.numEvents && Alone(cfg, id)
    requires Cell(cfg, cfg.index[id], e) < MAX_ENTRIES
    requires forall ev :: ev in es && ev.Switch? ==> Distinct(ev.ancestors)
    ensures Cong(Reported(cfg, ms, es, cfg.index[id], e, cpu)
                 + ms[|es|].readings[cpu][Cell(cfg, cfg.index[id], e)].counter, EarnedBy(es, id, e, cpu))
  {
    CellIsEarned(cfg, ms, es, cfg.index[id], e, cpu);
    EarnedIsEarnedBy(cfg, es, id, e, cpu);
  }

  /** The maps after the first switch, away from a task in the one cgroup `other`, with `v` counted for event `e`. */
  lemma FirstSwitch(cfg: Config, other: Id, e: nat, cpu: nat, v: Value)
    returns (ms: seq<Maps>, vals: seq<Option<Value>>)
    requires Sane(cfg) && cpu < cfg.numCpus && e < cfg.numEvents && other in cfg.index
    requires Cell(cfg, cfg.index[other], e) < MAX_ENTRIES
    ensures Runs(cfg, ms, [Switch(cpu, [other], vals)]) && e < |vals| && vals[e] == Some(v)
  {
    var g := cfg.index[other];
    var key := Cell(cfg, g, e);
    vals := seq(cfg.numEvents, i requires 0 <= i < cfg.numEvents => if i == e then Some(v) else None);
    var zero := ZeroRow(MAX_ENTRIES);
    var rows := seq(cfg.numCpus, _ => zero);
    var m := Maps(rows, rows);
    Widths(cfg);
    var t := Maps(rows[cpu := zero[e := v]], rows[cpu := zero[key := Plus(ZERO, Delta(v, ZERO))]]);
    forall h: nat, f: nat | f < cfg.numEvents && Cell(cfg, h, f) < MAX_ENTRIES
      ensures t.readings[cpu][Cell(cfg, h, f)]
           == if vals[f].None? then m.readings[cpu][Cell(cfg, h, f)]
              else Repeat(m.readings[cpu][Cell(cfg, h, f)], Delta(vals[f].value, m.prev[cpu][f]),
                          Weight(cfg, [other], h))
    {
      KeysNeverAlias(cfg, h, f, g, e);
      OneAncestor(cfg, other, h);
      assert Repeat(ZERO, Delta(v, ZERO), 1) == Plus(Repeat(ZERO, Delta(v, ZERO), 0), Delta(v, ZERO));
    }
    ms := [m, t];
    assert Counted(cfg, m, cpu, [other], vals, t);
    assert Fits(cfg, Switch(cpu, [other], vals)) && Step(cfg, m, Switch(cpu, [other], vals), t);
  }

  lemma Widths(cfg: Config)
    requires Sane(cfg)
    ensures cfg.numEvents <= MAX_ENTRIES
  {
  }

  lemma OneAncestor(cfg: Config, other: Id, h: nat)
    requires other in cfg.index
    ensures Weight(cfg, [other], h) == if h == cfg.index[other] then 1 else 0
  {
    assert [other][..0] == [];
    assert Indices(cfg.index, [other]) == [] + [cfg.index[other]];
  }

  /** A shared index is enough to break it: one switch away from a task in `other` is counted for `id`. */
  lemma SharedIndexIsCharged(cfg: Config, id: Id, other: Id, e: nat, cpu: nat, v: Value)
    returns (ms: seq<Maps>, es: seq<Event>)
    requires Sane(cfg) && cpu < cfg.numCpus && e < cfg.numEvents && v.counter != 0
    requires id in cfg.index && other in cfg.index && other != id && cfg.index[other] == cfg.index[id]
    requires Cell(cfg, cfg.index[id], e) < MAX_ENTRIES
    ensures Runs(cfg, ms, es) && |es| == 1 && EarnedBy(es, id, e, cpu) == 0
    ensures !Cong(Reported(cfg, ms, es, cfg.index[id], e, cpu)
                  + ms[1].readings[cpu][Cell(cfg, cfg.index[id], e)].counter,
                  EarnedBy(es, id, e, cpu))
  {
    var vals;
    ms, vals := FirstSwitch(cfg, other, e, cpu, v);
    es := [Switch(cpu, [other], vals)];
    var g := cfg.index[id];
    CellIsEarned(cfg, ms, es, g, e, cpu);
    OneIntervalEarned(cfg, id, other, e, cpu, vals);
    hide Runs;
    var cell := Reported(cfg, ms, es, g, e, cpu) + ms[1].readings[cpu][Cell(cfg, g, e)].counter;
    NonZeroWord(cell, v.counter);
  }

  lemma OneIntervalEarned(cfg: Config, id: Id, other: Id, e: nat, cpu: nat, vals: seq<Option<Value>>)
    requires id in cfg.index && other in cfg.index && other != id && cfg.index[other] == cfg.index[id]
    requires e < |vals| && vals[e].Some?
    ensures Earned(cfg, [Switch(cpu, [other], vals)], cfg.index[id], e, cpu) == vals[e].value.counter
    ensures EarnedBy([Switch(cpu, [other], vals)], id, e, cpu) == 0
  {
    var es := [Switch(cpu, [other], vals)];
    assert es[..0] == [] && [other][..0] == [];
    assert Indices(cfg.index, [other]) == [] + [cfg.index[id]];
    assert multiset([cfg.index[id]])[cfg.index[id]] == 1;
    GainOnce(vals[e].value.counter);
  }

  lemma NonZeroWord(cell: int, v: u64)
    requires Cong(cell, v) && v != 0
    ensures !Cong(cell, 0)
  {
    CongIsSameWord(cell, v);
    CongIsSameWord(cell, 0);
    RemainderUnique(v, TWO64, 0, v);
  }

  /** A user-space counter object with its own cgroupIdxMap, as each PerfCounterBpf has. */
  class Counter {
    var cgroupIdxMap: map<string, nat>

    constructor ()
      ensures cgroupIdxMap == map[]
    {
      cgroupIdxMap := map[];
    }

    /** Index registration: the index is the size of this object's own map. */
    method RegisterCgroup(prog: Program, name: string, id: Id)
      modifies this, prog`index
      ensures name in old(cgroupIdxMap) ==> cgroupIdxMap == old(cgroupIdxMap) && prog.index == old(prog.index)
      ensures name !in old(cgroupIdxMap) ==>
                && cgroupIdxMap == old(cgroupIdxMap)[name := |old(cgroupIdxMap)|]
                && prog.index == old(prog.index)[id := |old(cgroupIdxMap)|]
    {
      if name !in cgroupIdxMap {
        var idx := |cgroupIdxMap|;
        prog.index := prog.index[id := idx];
        cgroupIdxMap := cgroupIdxMap[name := idx];
      }
    }
  }

  /** Two cgroups opened through two objects share index 0, so neither is `Alone`. */
  method TwoObjectsShareAnIndex(prog: Program, first: string, a: Id, second: string, b: Id)
    requires a != b
    modifies prog`index
    ensures prog.index == old(prog.index)[a := 0][b := 0]
    ensures !Alone(prog.Cfg(), a) && !Alone(prog.Cfg(), b)
  {
    var one := new Counter();
    var two := new Counter();
    one.RegisterCgroup(prog, first, a);
    two.RegisterCgroup(prog, second, b);
    assert prog.index[a] == prog.index[b] == 0;
  }
}
