/**
  Splitting aggregate uncore events: an event such as hisi_sccl1_ddrc/act_cmd/ stands for the same event of every
  device whose name starts like that. Each sub-event name is mapped to the event it came from, first come first
  served, and the events are replaced by their sub-events.
*/
module UncoreSplit {
  import opened Words
  import opened UncoreSum
  import opened Sums

  // ----- Names -----

  /** The position of the first slash, or the length. */
  function Slash(s: string): (i: nat)
    ensures i <= |s| && (i < |s| ==> s[i] == '/') && forall j :: 0 <= j < i ==> s[j] != '/'
  {
    if s == "" then 0 else if s[0] == '/' then 0 else 1 + Slash(s[1..])
  }

  function Device(s: string): string {
    s[..Slash(s)]
  }

  /** What is between the first slash and the last character. */
  function EventName(s: string): string {
    if Slash(s) + 1 < |s| then s[Slash(s) + 1..|s| - 1] else ""
  }

  predicate IsDigit(c: char) { '0' <= c <= '9' }

  /** An aggregate event names a device class: no digit before its slash. */
  predicate IsAggregate(s: string) {
    0 < Slash(s) < |s| && !IsDigit(s[Slash(s) - 1])
  }

  /** Uncore event `u` is one of the events `evt` stands for. */
  predicate Matches(evt: string, u: string) {
    Device(evt) <= u && EventName(evt) == EventName(u)
  }

  // ----- Names built from a device and an event -----

  function Name(device: string, event: string): string { device + "/" + event + "/" }

  /** The two parts of a name come back. */
  lemma PartsOfName(device: string, event: string)
    requires '/' !in device
    ensures Device(Name(device, event)) == device && EventName(Name(device, event)) == event
    ensures Slash(Name(device, event)) == |device|
  {
    var s := Name(device, event);
    var i := Slash(s);
    assert s[|device|] == '/' && forall j :: 0 <= j < |device| ==> s[j] == device[j] && device[j] in device;
    assert i == |device|;
    assert s[i + 1..|s| - 1] == event && s[..i] == device;
  }

  /** A name stands for another one exactly when its device is a prefix of the other's and the events are the same. */
  lemma MatchesIff(device: string, event: string, other: string, f: string)
    requires '/' !in device && '/' !in other
    ensures Matches(Name(device, event), Name(other, f)) <==> device <= other && event == f
  {
    PartsOfName(device, event);
    PartsOfName(other, f);
    var u := Name(other, f);
    if |device| > |other| {
      assert u[|other|] == '/' && device[|other|] in device;
    }
    assert |device| <= |other| ==> u[..|device|] == other[..|device|];
  }

  /** It is an aggregate exactly when the device does not end in a digit. */
  lemma IsAggregateIff(device: string, event: string)
    requires '/' !in device
    ensures IsAggregate(Name(device, event)) <==> device != "" && device[|device| - 1] !in "0123456789"
  {
    PartsOfName(device, event);
    if device != "" {
      assert Name(device, event)[|device| - 1] == device[|device| - 1];
      DigitIff(device[|device| - 1]);
    }
  }

  lemma DigitIff(c: char)
    ensures IsDigit(c) <==> c in "0123456789"
  {
  }

  /** `evt` stands for other events. */
  predicate Splits(uncores: seq<string>, evt: string) {
    IsAggregate(evt) && exists i :: 0 <= i < |uncores| && Matches(evt, uncores[i])
  }

  /** `evt` asks for `k`: one of its sub-events, or itself. */
  predicate Claims(uncores: seq<string>, evt: string, k: string) {
    if Splits(uncores, evt) then k in uncores && Matches(evt, k) else k == evt
  }

  /** An event without a slash stands for itself only. */
  lemma PlainStandsForItself(uncores: seq<string>, s: string, k: string)
    ensures '/' !in s ==> (Claims(uncores, s, k) <==> k == s)
  {
    assert Slash(s) < |s| ==> s[Slash(s)] in s;
  }

  /** The event a name was split from is the first that claims it. */
  ghost predicate FirstClaim(uncores: seq<string>, evts: seq<string>, k: string, i: nat) {
    i < |evts| && Claims(uncores, evts[i], k) && forall j :: 0 <= j < i ==> !Claims(uncores, evts[j], k)
  }

  ghost predicate Claimed(uncores: seq<string>, evts: seq<string>, k: string) {
    exists i :: 0 <= i < |evts| && Claims(uncores, evts[i], k)
  }

  /** The split map over `evts`. */
  ghost predicate SplitRight(uncores: seq<string>, evts: seq<string>, m: map<string, string>) {
    && (forall k :: k in m <==> Claimed(uncores, evts, k))
    && forall k, i: nat :: FirstClaim(uncores, evts, k, i) ==> k in m && m[k] == evts[i]
  }

  /** std::unordered_map::emplace. */
  function Emplace(m: map<string, string>, k: string, v: string): map<string, string> {
    if k in m then m else m[k := v]
  }

  /** AppendChildEvents. */
  method AppendChildEvents(uncores: seq<string>, evt: string, m0: map<string, string>)
    returns (found: bool, m: map<string, string>)
    ensures found <==> exists i :: 0 <= i < |uncores| && Matches(evt, uncores[i])
    ensures forall k :: k in m <==> k in m0 || (k in uncores && Matches(evt, k))
    ensures forall k :: k in m ==> m[k] == if k in m0 then m0[k] else evt
  {
    hide Matches;
    m, found := m0, false;
    for i := 0 to |uncores|
      invariant found <==> exists j :: 0 <= j < i && Matches(evt, uncores[j])
      invariant forall k :: k in m <==> k in m0 || (k in uncores[..i] && Matches(evt, k))
      invariant forall k :: k in m ==> m[k] == if k in m0 then m0[k] else evt
    {
      assert uncores[..i + 1] == uncores[..i] + [uncores[i]];
      if Matches(evt, uncores[i]) {
        found, m := true, Emplace(m, uncores[i], evt);
      }
    }
    assert uncores[..|uncores|] == uncores;
  }

  /** One event claims its names in the split map. */
  lemma ClaimStep(uncores: seq<string>, evts: seq<string>, i: nat, m: map<string, string>, m1: map<string, string>)
    requires i < |evts| && SplitRight(uncores, evts[..i], m)
    requires forall k :: k in m1 <==> k in m || Claims(uncores, evts[i], k)
    requires forall k :: k in m1 ==> m1[k] == if k in m then m[k] else evts[i]
    ensures SplitRight(uncores, evts[..i + 1], m1)
  {
    hide Claims;
    var a, b := evts[..i], evts[..i + 1];
    assert b == a + [evts[i]] && b[i] == evts[i];
    forall k
      ensures Claimed(uncores, b, k) <==> Claimed(uncores, a, k) || Claims(uncores, evts[i], k)
    {
      if Claimed(uncores, a, k) {
        var j :| 0 <= j < |a| && Claims(uncores, a[j], k);
        assert b[j] == a[j];
      }
    }
    forall k, j: nat | FirstClaim(uncores, b, k, j)
      ensures k in m1 && m1[k] == b[j]
    {
      if j < i {
        assert FirstClaim(uncores, a, k, j) by {
          assert forall l :: 0 <= l < i ==> a[l] == b[l];
        }
      } else {
        assert !Claimed(uncores, a, k) by {
          assert forall l :: 0 <= l < i ==> a[l] == b[l];
        }
      }
    }
  }

  lemma NothingSplit(uncores: seq<string>, evts: seq<string>)
    ensures SplitRight(uncores, evts[..0], map[])
  {
  }

  /** SplitUncoreEvent. */
  method SplitUncoreEvent(uncores: seq<string>, evts: seq<string>) returns (m: map<string, string>)
    ensures SplitRight(uncores, evts, m)
  {
    hide SplitRight, Matches;
    m := map[];
    NothingSplit(uncores, evts);
    for i := 0 to |evts|
      invariant SplitRight(uncores, evts[..i], m)
    {
      var was := m;
      var evt := evts[i];
      var found := false;
      if IsAggregate(evt) {
        found, m := AppendChildEvents(uncores, evt, m);
      }
      if !found {
        m := Emplace(was, evt, evt);
      }
      ClaimStep(uncores, evts, i, was, m);
    }
    assert evts[..|evts|] == evts;
  }

  // ----- The new event list -----

  /** `names` from `at` on are what event number `i` is replaced by. */
  ghost predicate BlockOf(m: map<string, string>, evt: string, block: seq<string>) {
    && (forall j :: 0 <= j < |block| ==> block[j] in m)
    && (forall j, l :: 0 <= j < l < |block| ==> block[j] != block[l])
    && if evt in m then block == [evt] else forall k :: k in block <==> k in m && m[k] == evt
  }

  /** The names an event is replaced by: itself when it is in the map, else every name split from it, in any order. */
  method Block(m: map<string, string>, evt: string) returns (block: seq<string>)
    ensures BlockOf(m, evt, block)
  {
    if evt in m {
      return [evt];
    }
    block := [];
    var todo := set k | k in m && m[k] == evt;
    while todo != {}
      invariant forall k :: k in todo || k in block <==> k in m && m[k] == evt
      invariant forall k :: k in todo ==> k !in block
      invariant forall j, l :: 0 <= j < l < |block| ==> block[j] != block[l]
      invariant forall j :: 0 <= j < |block| ==> block[j] in m
      decreases todo
    {
      ghost var some := SomeMember(todo);
      var k :| k in todo;
      assert k in m && k !in block;
      block, todo := block + [k], todo - {k};
    }
  }

  /** The new list: for each event its block, and `from` says which event a name stands for. */
  ghost predicate Generated(m: map<string, string>, evts: seq<string>, names: seq<string>, from: seq<nat>) {
    && Shaped(m, evts, names, from)
    && forall i, k :: 0 <= i < |evts| && k in m && Stands(m, evts[i], k) ==> Listed(names, from, i, k)
  }

  ghost predicate Shaped(m: map<string, string>, evts: seq<string>, names: seq<string>, from: seq<nat>) {
    && |names| == |from|
    && (forall j :: 0 <= j < |names| ==> from[j] < |evts| && names[j] in m && Stands(m, evts[from[j]], names[j]))
    && forall j, l :: 0 <= j < l < |names| ==> from[j] <= from[l] && (from[j] == from[l] ==> names[j] != names[l])
  }

  ghost predicate Listed(names: seq<string>, from: seq<nat>, i: int, k: string) {
    exists j :: 0 <= j < |names| && j < |from| && from[j] == i && names[j] == k
  }

  /** `k` stands for `evt` in the new list. */
  predicate Stands(m: map<string, string>, evt: string, k: string)
    requires k in m
  {
    if evt in m then k == evt else m[k] == evt
  }

  /** GenerateSplitList. */
  method GenerateSplitList(m: map<string, string>, evts: seq<string>) returns (names: seq<string>, ghost from: seq<nat>)
    ensures Generated(m, evts, names, from) && forall j :: 0 <= j < |names| ==> names[j] in m
  {
    names, from := [], [];
    for i := 0 to |evts|
      invariant Generated(m, evts[..i], names, from)
    {
      var block := Block(m, evts[i]);
      GenerateStep(m, evts, i, names, from, block);
      names, from := names + block, from + seq(|block|, _ => i);
    }
    assert evts[..|evts|] == evts;
  }

  lemma GenerateStep(m: map<string, string>, evts: seq<string>, i: nat, names: seq<string>, from: seq<nat>,
                     block: seq<string>)
    requires i < |evts| && Generated(m, evts[..i], names, from) && BlockOf(m, evts[i], block)
    ensures Generated(m, evts[..i + 1], names + block, from + seq(|block|, _ => i))
  {
    var b, names1, from1 := evts[..i + 1], names + block, from + seq(|block|, _ => i);
    ShapedStep(m, evts, i, names, from, block);
    hide Shaped, Stands;
    forall l, k | 0 <= l < |b| && k in m && Stands(m, b[l], k)
      ensures Listed(names1, from1, l, k)
    {
      if l < i {
        assert evts[..i][l] == b[l];
        ListedBefore(names, from, l, k, block, i);
      } else {
        InBlock(m, evts[i], block, k);
        ListedIn(names, from, k, block, i);
      }
    }
  }

  lemma InBlock(m: map<string, string>, evt: string, block: seq<string>, k: string)
    requires BlockOf(m, evt, block) && k in m && Stands(m, evt, k)
    ensures k in block
  {
  }

  lemma ListedBefore(names: seq<string>, from: seq<nat>, l: int, k: string, block: seq<string>, i: nat)
    requires Listed(names, from, l, k)
    ensures Listed(names + block, from + seq(|block|, _ => i), l, k)
  {
    var j :| 0 <= j < |names| && j < |from| && from[j] == l && names[j] == k;
    assert (names + block)[j] == k && (from + seq(|block|, _ => i))[j] == l;
  }

  lemma ListedIn(names: seq<string>, from: seq<nat>, k: string, block: seq<string>, i: nat)
    requires k in block && |names| == |from|
    ensures Listed(names + block, from + seq(|block|, _ => i), i, k)
  {
    var j :| 0 <= j < |block| && block[j] == k;
    assert (names + block)[|names| + j] == k && (from + seq(|block|, _ => i))[|names| + j] == i;
  }

  lemma ShapedStep(m: map<string, string>, evts: seq<string>, i: nat, names: seq<string>, from: seq<nat>,
                   block: seq<string>)
    requires i < |evts| && Shaped(m, evts[..i], names, from) && BlockOf(m, evts[i], block)
    ensures Shaped(m, evts[..i + 1], names + block, from + seq(|block|, _ => i)) && |names| == |from|
  {
    var a, b := evts[..i], evts[..i + 1];
    var names1, from1 := names + block, from + seq(|block|, _ => i);
    forall j | 0 <= j < |names1|
      ensures from1[j] < |b| && names1[j] in m && Stands(m, b[from1[j]], names1[j])
    {
      if j < |names| {
        assert names1[j] == names[j] && from1[j] == from[j] && a[from[j]] == b[from[j]];
      } else {
        assert names1[j] == block[j - |names|] && from1[j] == i && block[j - |names|] in block;
      }
    }
    forall j, l | 0 <= j < l < |names1|
      ensures from1[j] <= from1[l] && (from1[j] == from1[l] ==> names1[j] != names1[l])
    {
      if l < |names| {
        assert names1[j] == names[j] && from1[j] == from[j];
      }
    }
  }

  // ----- Split, read, aggregate -----

  /** No repeated or overlapping events: no name is asked for twice, and no event that splits is itself asked for. */
  ghost predicate Separate(uncores: seq<string>, evts: seq<string>) {
    && (forall i, j, k :: 0 <= i < j < |evts| && Claims(uncores, evts[i], k) ==> !Claims(uncores, evts[j], k))
    && forall i, j :: 0 <= i < |evts| && 0 <= j < |evts| && Splits(uncores, evts[i]) ==>
          !Claims(uncores, evts[j], evts[i])
  }

  lemma ClaimedOnce(uncores: seq<string>, evts: seq<string>, i: nat, j: nat, k: string)
    requires Separate(uncores, evts) && i < |evts| && j < |evts|
    requires Claims(uncores, evts[i], k) && Claims(uncores, evts[j], k)
    ensures i == j
  {
  }

  lemma ClaimsSomething(uncores: seq<string>, evt: string) returns (k: string)
    ensures Claims(uncores, evt, k)
  {
    if Splits(uncores, evt) {
      var i :| 0 <= i < |uncores| && Matches(evt, uncores[i]);
      k := uncores[i];
    } else {
      k := evt;
    }
  }

  lemma EventsDiffer(uncores: seq<string>, evts: seq<string>, i: nat, j: nat)
    requires Separate(uncores, evts) && i < |evts| && j < |evts| && evts[i] == evts[j]
    ensures i == j
  {
    var k := ClaimsSomething(uncores, evts[i]);
    ClaimedOnce(uncores, evts, i, j, k);
  }

  /** A claimed name is split from its claimer, and stands for it in the new list. */
  lemma ClaimStands(uncores: seq<string>, evts: seq<string>, m: map<string, string>, i: nat, k: string)
    requires SplitRight(uncores, evts, m) && Separate(uncores, evts) && i < |evts| && Claims(uncores, evts[i], k)
    ensures k in m && m[k] == evts[i] && Stands(m, evts[i], k)
  {
    assert FirstClaim(uncores, evts, k, i);
  }

  lemma StandsClaims(uncores: seq<string>, evts: seq<string>, m: map<string, string>, i: nat, k: string)
    requires SplitRight(uncores, evts, m) && Separate(uncores, evts) && i < |evts| && k in m && Stands(m, evts[i], k)
    ensures Claims(uncores, evts[i], k)
  {
    assert Claimed(uncores, evts, k);
    var j :| 0 <= j < |evts| && Claims(uncores, evts[j], k);
    ClaimStands(uncores, evts, m, j, k);
  }

  /** A reading of every generated name. */
  ghost predicate Readings(names: seq<string>, data: seq<Row>) {
    |data| == |names| && forall j :: 0 <= j < |names| ==> data[j].evt == names[j]
  }

  lemma Parents(uncores: seq<string>, evts: seq<string>, m: map<string, string>, names: seq<string>, from: seq<nat>)
    requires SplitRight(uncores, evts, m) && Separate(uncores, evts) && Generated(m, evts, names, from)
    ensures forall j :: 0 <= j < |names| ==> names[j] in m && from[j] < |evts| && m[names[j]] == evts[from[j]]
    ensures forall j, l :: 0 <= j < l < |names| ==> names[j] != names[l]
  {
    forall j | 0 <= j < |names|
      ensures Claims(uncores, evts[from[j]], names[j]) && m[names[j]] == evts[from[j]]
    {
      StandsClaims(uncores, evts, m, from[j], names[j]);
      ClaimStands(uncores, evts, m, from[j], names[j]);
    }
    forall j, l | 0 <= j < l < |names|
      ensures names[j] != names[l]
    {
      if names[j] == names[l] {
        ClaimedOnce(uncores, evts, from[j], from[l], names[j]);
      }
    }
  }

  /** Readings of one event come from one place in the list, and an event that was not split is read once. */
  lemma ReadingsOf(uncores: seq<string>, evts: seq<string>, m: map<string, string>, names: seq<string>, from: seq<nat>,
                   data: seq<Row>, i: nat, k: nat)
    requires SplitRight(uncores, evts, m) && Separate(uncores, evts) && Generated(m, evts, names, from)
    requires Readings(names, data) && i < |data| && k < |data|
    ensures data[i].evt in m && data[k].evt in m
    ensures m[data[i].evt] == m[data[k].evt] ==> from[i] == from[k]
    ensures i != k ==> data[i].evt != data[k].evt
    ensures i != k && m[data[i].evt] == data[i].evt ==> m[data[k].evt] != data[i].evt
  {
    Parents(uncores, evts, m, names, from);
    if m[data[i].evt] == m[data[k].evt] {
      EventsDiffer(uncores, evts, from[i], from[k]);
    }
    hide SplitRight, Separate, Claims;
    if i != k && m[data[i].evt] == data[i].evt {
      assert evts[from[i]] == names[i];
      assert Stands(m, evts[from[k]], names[k]);
    }
  }

  /** The readings of a generated list fit the aggregation: known, once each, and event by event. */
  lemma ReadingsApart(uncores: seq<string>, evts: seq<string>, m: map<string, string>, names: seq<string>,
                      from: seq<nat>, data: seq<Row>)
    requires SplitRight(uncores, evts, m) && Separate(uncores, evts) && Generated(m, evts, names, from)
    requires Readings(names, data)
    ensures Known(data, m) && ReadOnce(data, m) && Apart(data, m)
  {
    Parents(uncores, evts, m, names, from);
    forall i, k | 0 <= i < |data| && 0 <= k < |data|
      ensures data[i].evt in m && data[k].evt in m
      ensures m[data[i].evt] == m[data[k].evt] ==> from[i] == from[k]
      ensures i != k ==> data[i].evt != data[k].evt
      ensures i != k && m[data[i].evt] == data[i].evt ==> m[data[k].evt] != data[i].evt
    {
      ReadingsOf(uncores, evts, m, names, from, data, i, k);
    }
    hide SplitRight, Separate, Claims;
  }

  /** The counts read for the sub-events of `p`, by name. */
  function CountsOf(data: seq<Row>, m: map<string, string>, p: string): map<string, int>
    requires Known(data, m)
  {
    if data == [] then map[]
    else
      var last, rest := data[|data| - 1], CountsOf(data[..|data| - 1], m, p);
      if m[last.evt] == p then rest[last.evt := last.count] else rest
  }

  lemma {:induction false} CountsKeys(data: seq<Row>, m: map<string, string>, p: string)
    requires Known(data, m)
    ensures forall k :: k in CountsOf(data, m, p) ==> exists i :: 0 <= i < |data| && data[i].evt == k && m[k] == p
  {
    if data != [] {
      CountsKeys(data[..|data| - 1], m, p);
    }
  }

  lemma {:induction false} CountsHold(data: seq<Row>, m: map<string, string>, p: string, i: nat)
    requires Known(data, m) && (forall i, j :: 0 <= i < j < |data| ==> data[i].evt != data[j].evt) && i < |data|
    ensures m[data[i].evt] == p ==>
              data[i].evt in CountsOf(data, m, p) && CountsOf(data, m, p)[data[i].evt] == data[i].count
  {
    if i < |data| - 1 {
      CountsHold(data[..|data| - 1], m, p, i);
    }
  }

  lemma {:induction false} CountsTotal(data: seq<Row>, m: map<string, string>, p: string)
    requires Known(data, m) && forall i, j :: 0 <= i < j < |data| ==> data[i].evt != data[j].evt
    ensures Read(data, m, p) == Total(CountsOf(data, m, p))
  {
    if data == [] {
      TotalZero(CountsOf(data, m, p));
    } else {
      var init, last := data[..|data| - 1], data[|data| - 1];
      CountsTotal(init, m, p);
      CountsKeys(init, m, p);
      var rest := CountsOf(init, m, p);
      assert last.evt !in rest;
      hide Total;
      TotalRemove(rest[last.evt := last.count], last.evt);
      assert rest[last.evt := last.count] - {last.evt} == rest;
    }
  }

  /** The names `evt` asks for. */
  ghost function ClaimSet(uncores: seq<string>, evt: string): set<string> {
    if Splits(uncores, evt) then set k | k in uncores && Matches(evt, k) else {evt}
  }

  /** The counts of the events `evt` stands for. */
  ghost function Wanted(uncores: seq<string>, evt: string, counts: string -> nat): map<string, int> {
    map k | k in ClaimSet(uncores, evt) :: counts(k)
  }

  /** The list was generated from the events, and every name on it was read once. */
  ghost predicate Collected(uncores: seq<string>, evts: seq<string>, m: map<string, string>, names: seq<string>,
                            from: seq<nat>, data: seq<Row>, counts: string -> nat) {
    && SplitRight(uncores, evts, m) && Separate(uncores, evts) && Generated(m, evts, names, from)
    && Readings(names, data) && Known(data, m) && forall j :: 0 <= j < |data| ==> data[j].count == counts(data[j].evt)
  }

  lemma CountIsWanted(uncores: seq<string>, evts: seq<string>, m: map<string, string>, names: seq<string>,
                      from: seq<nat>, data: seq<Row>, counts: string -> nat, i: nat, k: string)
    requires Collected(uncores, evts, m, names, from, data, counts) && i < |evts|
    requires exists j :: 0 <= j < |data| && data[j].evt == k && m[k] == evts[i]
    ensures k in ClaimSet(uncores, evts[i])
  {
    var j :| 0 <= j < |data| && data[j].evt == k && m[k] == evts[i];
    Parents(uncores, evts, m, names, from);
    EventsDiffer(uncores, evts, from[j], i);
    NameClaims(uncores, evts, m, names, from, j);
  }

  lemma WantedIsCounted(uncores: seq<string>, evts: seq<string>, m: map<string, string>, names: seq<string>,
                        from: seq<nat>, data: seq<Row>, counts: string -> nat, i: nat, k: string)
    requires Collected(uncores, evts, m, names, from, data, counts) && i < |evts| && k in ClaimSet(uncores, evts[i])
    ensures k in CountsOf(data, m, evts[i]) && CountsOf(data, m, evts[i])[k] == counts(k)
  {
    hide SplitRight, Separate, Generated, ClaimSet, CountsOf;
    Parents(uncores, evts, m, names, from);
    ClaimListed(uncores, evts, m, names, from, i, k);
    var j :| 0 <= j < |names| && from[j] == i && names[j] == k;
    assert data[j].evt == k;
    CountsHold(data, m, evts[i], j);
  }

  lemma CountsAreWanted(uncores: seq<string>, evts: seq<string>, m: map<string, string>, names: seq<string>,
                        from: seq<nat>, data: seq<Row>, counts: string -> nat, i: nat)
    requires Collected(uncores, evts, m, names, from, data, counts) && i < |evts|
    ensures Read(data, m, evts[i]) == Total(Wanted(uncores, evts[i], counts))
  {
    hide CountsOf, SplitRight, Separate, Generated, Total, ClaimSet, Read;
    Parents(uncores, evts, m, names, from);
    CountsTotal(data, m, evts[i]);
    CountsKeys(data, m, evts[i]);
    var got, wanted := CountsOf(data, m, evts[i]), Wanted(uncores, evts[i], counts);
    forall k | k in got
      ensures k in wanted && got[k] == wanted[k]
    {
      CountIsWanted(uncores, evts, m, names, from, data, counts, i, k);
      WantedIsCounted(uncores, evts, m, names, from, data, counts, i, k);
    }
    forall k | k in wanted
      ensures k in got
    {
      WantedIsCounted(uncores, evts, m, names, from, data, counts, i, k);
    }
    assert got == wanted;
  }

  lemma NameClaims(uncores: seq<string>, evts: seq<string>, m: map<string, string>, names: seq<string>, from: seq<nat>,
                   j: nat)
    requires SplitRight(uncores, evts, m) && Separate(uncores, evts) && Generated(m, evts, names, from) && j < |names|
    ensures from[j] < |evts| && names[j] in ClaimSet(uncores, evts[from[j]])
  {
    StandsClaims(uncores, evts, m, from[j], names[j]);
  }

  lemma ClaimListed(uncores: seq<string>, evts: seq<string>, m: map<string, string>, names: seq<string>, from: seq<nat>,
                    i: nat, k: string)
    requires SplitRight(uncores, evts, m) && Separate(uncores, evts) && Generated(m, evts, names, from)
    requires i < |evts| && k in ClaimSet(uncores, evts[i])
    ensures |names| == |from| && exists j :: 0 <= j < |names| && from[j] == i && names[j] == k
  {
    ClaimStands(uncores, evts, m, i, k);
    assert Listed(names, from, i, k);
  }

  lemma EventIsRead(uncores: seq<string>, evts: seq<string>, m: map<string, string>, names: seq<string>, from: seq<nat>,
                    data: seq<Row>, counts: string -> nat, i: nat)
    requires Collected(uncores, evts, m, names, from, data, counts) && i < |evts|
    ensures WasRead(data, m, |data|, evts[i])
  {
    var k := ClaimsSomething(uncores, evts[i]);
    Parents(uncores, evts, m, names, from);
    ClaimListed(uncores, evts, m, names, from, i, k);
    var j :| 0 <= j < |names| && from[j] == i && names[j] == k;
    assert m[data[j].evt] == evts[i];
  }

  /** One row per event, with the sum of what it stands for. */
  ghost predicate RowsAre(uncores: seq<string>, evts: seq<string>, counts: string -> nat, out: seq<Row>) {
    && (forall r, t :: 0 <= r < t < |out| ==> out[r].evt != out[t].evt)
    && (forall i :: 0 <= i < |evts| ==> HasRow(out, evts[i]))
    && forall r :: 0 <= r < |out| ==> IsRowOf(uncores, evts, counts, out[r])
  }

  ghost predicate IsRowOf(uncores: seq<string>, evts: seq<string>, counts: string -> nat, row: Row) {
    exists i :: 0 <= i < |evts| && row.evt == evts[i] && row.count == Total(Wanted(uncores, evts[i], counts))
  }

  lemma RowsAreRight(uncores: seq<string>, evts: seq<string>, m: map<string, string>, names: seq<string>,
                     from: seq<nat>, data: seq<Row>, counts: string -> nat, out: seq<Row>)
    requires Collected(uncores, evts, m, names, from, data, counts) && Aggregated(data, m, out)
    ensures RowsAre(uncores, evts, counts, out)
  {
    hide Aggregated, Apart, ReadOnce, SplitRight, Separate, Read, Total, Wanted;
    ReadingsApart(uncores, evts, m, names, from, data);
    OneRowEach(data, m, out);
    Parents(uncores, evts, m, names, from);
    hide Generated;
    forall i | 0 <= i < |evts|
      ensures HasRow(out, evts[i])
    {
      EventIsRead(uncores, evts, m, names, from, data, counts, i);
    }
    forall r | 0 <= r < |out|
      ensures IsRowOf(uncores, evts, counts, out[r])
    {
      assert HasRow(out, out[r].evt);
      var j :| 0 <= j < |data| && m[data[j].evt] == out[r].evt;
      CountsAreWanted(uncores, evts, m, names, from, data, counts, from[j]);
    }
  }

  // ----- The order of the rows -----

  /** The list runs through the events one by one, leaving none out. */
  ghost predicate Steps(evts: seq<string>, from: seq<nat>) {
    && (from == [] <==> evts == []) && (from != [] ==> from[0] == 0 && from[|from| - 1] == |evts| - 1)
    && forall j :: 0 < j < |from| ==> from[j] == from[j - 1] || from[j] == from[j - 1] + 1
  }

  lemma EveryEventListed(uncores: seq<string>, evts: seq<string>, m: map<string, string>, names: seq<string>,
                         from: seq<nat>, i: nat)
    returns (j: nat)
    requires SplitRight(uncores, evts, m) && Separate(uncores, evts) && Generated(m, evts, names, from) && i < |evts|
    ensures j < |names| == |from| && from[j] == i
  {
    var k := ClaimsSomething(uncores, evts[i]);
    ClaimListed(uncores, evts, m, names, from, i, k);
    var l :| 0 <= l < |names| && from[l] == i && names[l] == k;
    j := l;
  }

  lemma FromSteps(uncores: seq<string>, evts: seq<string>, m: map<string, string>, names: seq<string>, from: seq<nat>)
    requires SplitRight(uncores, evts, m) && Separate(uncores, evts) && Generated(m, evts, names, from)
    ensures Steps(evts, from)
  {
    hide SplitRight, Separate;
    assert from != [] ==> from[0] < |evts|;
    if evts != [] {
      var a := EveryEventListed(uncores, evts, m, names, from, 0);
      var b := EveryEventListed(uncores, evts, m, names, from, |evts| - 1);
      assert from[0] <= from[a] && from[b] <= from[|from| - 1];
    }
    forall j | 0 < j < |from|
      ensures from[j] == from[j - 1] || from[j] == from[j - 1] + 1
    {
      assert from[j - 1] <= from[j] < |evts|;
      if from[j] > from[j - 1] {
        var l := EveryEventListed(uncores, evts, m, names, from, from[j - 1] + 1);
      }
    }
  }

  /** Between two events of the list there is a reading where one ends and the next begins. */
  lemma Boundary(evts: seq<string>, from: seq<nat>, j: nat) returns (a: nat)
    requires Steps(evts, from) && j < |from| && from[j] > 0
    ensures a + 1 < |from| && from[a] == from[j] - 1 && from[a + 1] == from[j]
    decreases j
  {
    if from[j - 1] == from[j] {
      a := Boundary(evts, from, j - 1);
    } else {
      a := j - 1;
    }
  }

  /** Reading `j` is of a sub-event exactly when its event was split. */
  lemma SplitReading(uncores: seq<string>, evts: seq<string>, m: map<string, string>, names: seq<string>,
                     from: seq<nat>, data: seq<Row>, j: nat)
    requires SplitRight(uncores, evts, m) && Separate(uncores, evts) && Generated(m, evts, names, from)
    requires Readings(names, data) && Known(data, m) && j < |data|
    ensures from[j] < |evts| && m[data[j].evt] == evts[from[j]]
    ensures IsSplit(data, m, j) <==> Splits(uncores, evts[from[j]])
  {
    StandsClaims(uncores, evts, m, from[j], names[j]);
    ClaimStands(uncores, evts, m, from[j], names[j]);
    assert Splits(uncores, evts[from[j]]) ==> !Claimed(uncores, evts, evts[from[j]]);
  }

  /** The readings as a plain sequence of positions in the event list. */
  ghost predicate Placed(uncores: seq<string>, evts: seq<string>, m: map<string, string>, from: seq<nat>,
                         data: seq<Row>) {
    && Known(data, m) && |from| == |data| && Steps(evts, from)
    && (forall i, j :: 0 <= i < j < |evts| ==> evts[i] != evts[j])
    && forall j :: 0 <= j < |data| ==>
         && from[j] < |evts| && m[data[j].evt] == evts[from[j]]
         && (IsSplit(data, m, j) <==> Splits(uncores, evts[from[j]]))
  }

  lemma ReadingsPlaced(uncores: seq<string>, evts: seq<string>, m: map<string, string>, names: seq<string>,
                       from: seq<nat>, data: seq<Row>)
    requires SplitRight(uncores, evts, m) && Separate(uncores, evts) && Generated(m, evts, names, from)
    requires Readings(names, data) && Known(data, m)
    ensures Placed(uncores, evts, m, from, data)
  {
    FromSteps(uncores, evts, m, names, from);
    hide Steps, IsSplit, Splits;
    forall j | 0 <= j < |data|
      ensures from[j] < |evts| && m[data[j].evt] == evts[from[j]]
      ensures IsSplit(data, m, j) <==> Splits(uncores, evts[from[j]])
    {
      SplitReading(uncores, evts, m, names, from, data, j);
    }
    forall i, j | 0 <= i < j < |evts|
      ensures evts[i] != evts[j]
    {
      if evts[i] == evts[j] {
        EventsDiffer(uncores, evts, i, j);
      }
    }
  }

  lemma {:induction false} OrderIsEvents(uncores: seq<string>, evts: seq<string>, m: map<string, string>,
                                         from: seq<nat>, data: seq<Row>, n: nat)
    requires Placed(uncores, evts, m, from, data) && 0 < n <= |data|
    ensures from[n - 1] < |evts| && Order(data, m, n) == evts[..from[n - 1] + 1]
  {
    if n > 1 {
      OrderIsEvents(uncores, evts, m, from, data, n - 1);
      assert from[n - 1] == from[n - 2] || from[n - 1] == from[n - 2] + 1;
    } else {
      assert Order(data, m, 0) == [];
    }
  }

  /** An event that does not split comes after two adjacent ones that do. */
  ghost predicate CrowdedEvents(uncores: seq<string>, evts: seq<string>) {
    exists i, k :: 0 <= i && i + 1 < k < |evts| && Splits(uncores, evts[i]) && Splits(uncores, evts[i + 1])
                   && !Splits(uncores, evts[k])
  }

  lemma Place(uncores: seq<string>, evts: seq<string>, m: map<string, string>, from: seq<nat>, data: seq<Row>, j: nat)
    requires Placed(uncores, evts, m, from, data) && j < |data|
    ensures |from| == |data| && Known(data, m) && Steps(evts, from)
    ensures from[j] < |evts| && m[data[j].evt] == evts[from[j]]
    ensures IsSplit(data, m, j) <==> Splits(uncores, evts[from[j]])
    ensures j > 0 ==> from[j] == from[j - 1] || from[j] == from[j - 1] + 1
  {
  }

  lemma CrowdedReadings(uncores: seq<string>, evts: seq<string>, m: map<string, string>, from: seq<nat>,
                        data: seq<Row>, a: nat, c: nat)
    requires Placed(uncores, evts, m, from, data) && Known(data, m) && c < |data|
    requires !IsSplit(data, m, c) && Adjoin(data, m, a, c)
    ensures CrowdedEvents(uncores, evts)
  {
    Place(uncores, evts, m, from, data, a);
    Place(uncores, evts, m, from, data, a + 1);
    Place(uncores, evts, m, from, data, c);
    hide Placed, Splits, IsSplit, Steps;
    Climbs(evts, from, a + 1, c);
    assert from[a + 1] == from[a] + 1 && from[c] != from[a + 1];
  }

  lemma CrowdedList(uncores: seq<string>, evts: seq<string>, m: map<string, string>, from: seq<nat>, data: seq<Row>,
                    i: nat, k: nat)
    requires Placed(uncores, evts, m, from, data) && Known(data, m) && i + 1 < k < |evts|
    requires Splits(uncores, evts[i]) && Splits(uncores, evts[i + 1]) && !Splits(uncores, evts[k])
    ensures Crowded(data, m, |data|)
  {
    var c := Reached(evts, from, k);
    var b := Reached(evts, from, i + 1);
    var a := Boundary(evts, from, b);
    Place(uncores, evts, m, from, data, a);
    Place(uncores, evts, m, from, data, a + 1);
    Place(uncores, evts, m, from, data, c);
    EventsApart(uncores, evts, m, from, data, i);
    hide Placed, Splits, IsSplit, Steps;
    if c <= a + 1 {
      Climbs(evts, from, c, a + 1);
    }
    assert Adjoin(data, m, a, c);
    assert Adjacent(data, m, c);
  }

  lemma EventsApart(uncores: seq<string>, evts: seq<string>, m: map<string, string>, from: seq<nat>, data: seq<Row>,
                    i: nat)
    requires Placed(uncores, evts, m, from, data) && i + 1 < |evts|
    ensures evts[i] != evts[i + 1]
  {
  }

  lemma CrowdedIff(uncores: seq<string>, evts: seq<string>, m: map<string, string>, from: seq<nat>, data: seq<Row>)
    requires Placed(uncores, evts, m, from, data) && Known(data, m)
    ensures Crowded(data, m, |data|) <==> CrowdedEvents(uncores, evts)
  {
    hide Placed, Splits, IsSplit, Adjacent;
    if Crowded(data, m, |data|) {
      var c :| 0 <= c < |data| && !IsSplit(data, m, c) && Adjacent(data, m, c);
      CrowdedAt(uncores, evts, m, from, data, c);
    }
    if CrowdedEvents(uncores, evts) {
      var i, k :| 0 <= i && i + 1 < k < |evts| && Splits(uncores, evts[i]) && Splits(uncores, evts[i + 1])
                  && !Splits(uncores, evts[k]);
      CrowdedList(uncores, evts, m, from, data, i, k);
    }
  }

  lemma CrowdedAt(uncores: seq<string>, evts: seq<string>, m: map<string, string>, from: seq<nat>, data: seq<Row>,
                  c: nat)
    requires Placed(uncores, evts, m, from, data) && Known(data, m) && c < |data|
    requires !IsSplit(data, m, c) && Adjacent(data, m, c)
    ensures CrowdedEvents(uncores, evts)
  {
    hide Placed, IsSplit, CrowdedEvents;
    var a :| Adjoin(data, m, a, c);
    CrowdedReadings(uncores, evts, m, from, data, a, c);
  }

  lemma RowsInOrder(uncores: seq<string>, evts: seq<string>, m: map<string, string>, names: seq<string>, from: seq<nat>,
                    data: seq<Row>, counts: string -> nat, out: seq<Row>)
    requires Collected(uncores, evts, m, names, from, data, counts) && Aggregated(data, m, out)
    ensures Names(out) == evts <==> !CrowdedEvents(uncores, evts)
  {
    hide SplitRight, Separate, Generated, Aggregated, Apart, ReadOnce, Crowded, CrowdedEvents, Order, IsSplit, Splits;
    ReadingsApart(uncores, evts, m, names, from, data);
    ReadingsPlaced(uncores, evts, m, names, from, data);
    CrowdedIff(uncores, evts, m, from, data);
    RowsOrdered(data, m, out);
    WholeOrder(uncores, evts, m, from, data);
  }

  lemma WholeOrder(uncores: seq<string>, evts: seq<string>, m: map<string, string>, from: seq<nat>, data: seq<Row>)
    requires Placed(uncores, evts, m, from, data) && Known(data, m)
    ensures Order(data, m, |data|) == evts
  {
    if data != [] {
      OrderIsEvents(uncores, evts, m, from, data, |data|);
      assert evts[..|evts|] == evts;
    }
  }

  lemma {:induction false} Climbs(evts: seq<string>, from: seq<nat>, i: nat, j: nat)
    requires Steps(evts, from) && i <= j < |from|
    ensures from[i] <= from[j]
    decreases j
  {
    if i < j {
      Climbs(evts, from, i, j - 1);
    }
  }

  /** Every event is reached. */
  lemma Reached(evts: seq<string>, from: seq<nat>, i: nat) returns (j: nat)
    requires Steps(evts, from) && i < |evts|
    ensures j < |from| && from[j] == i
  {
    j := |from| - 1;
    while from[j] != i
      invariant j < |from| && from[j] >= i
      decreases j
    {
      assert j > 0;
      j := j - 1;
    }
  }

  /** Splitting, reading every sub-event once and aggregating gives one row for each event the user asked for, and
      its count is the sum of the counts of the events it stands for. The rows are in the user's order exactly when
      no event that does not split comes after two adjacent ones that do. */
  method SplitAndAggregate(uncores: seq<string>, evts: seq<string>, counts: string -> nat) returns (out: seq<Row>)
    ensures Separate(uncores, evts) ==> RowsAre(uncores, evts, counts, out)
    ensures Separate(uncores, evts) ==> (Names(out) == evts <==> !CrowdedEvents(uncores, evts))
  {
    var m := SplitUncoreEvent(uncores, evts);
    var names, from := GenerateSplitList(m, evts);
    var data := seq(|names|, j requires 0 <= j < |names| => Row(names[j], 0, counts(names[j])));
    hide SplitRight, Separate, Aggregated, RowsAre, Stands;
    out := Aggregate(data, m);
    if Separate(uncores, evts) {
      RowsAreRight(uncores, evts, m, names, from, data, counts, out);
      RowsInOrder(uncores, evts, m, names, from, data, counts, out);
    }
  }

  // ----- The row of an event over named devices -----

  datatype Uncore = Uncore(device: string, event: string)

  function NamesOf(us: seq<Uncore>): (names: seq<string>)
    ensures |names| == |us| && forall i :: 0 <= i < |us| ==> names[i] == Name(us[i].device, us[i].event)
  {
    if us == [] then [] else NamesOf(us[..|us| - 1]) + [Name(us[|us| - 1].device, us[|us| - 1].event)]
  }

  ghost predicate PlainDevices(us: seq<Uncore>) {
    forall i :: 0 <= i < |us| ==> '/' !in us[i].device
  }

  predicate IsOf(device: string, event: string, u: Uncore) { device <= u.device && event == u.event }

  /** The counts of `event` on the devices whose name starts with `device`. */
  ghost function DeviceSum(us: seq<Uncore>, device: string, event: string, counts: string -> nat): nat {
    if us == [] then 0
    else
      var n := |us| - 1;
      DeviceSum(us[..n], device, event, counts)
      + if IsOf(device, event, us[n]) then counts(Name(us[n].device, us[n].event)) else 0
  }

  lemma NamesDiffer(u: Uncore, w: Uncore)
    requires '/' !in u.device && '/' !in w.device && Name(u.device, u.event) == Name(w.device, w.event)
    ensures u == w
  {
    PartsOfName(u.device, u.event);
    PartsOfName(w.device, w.event);
  }

  /** The counts of the names `evt` stands for, as a map. */
  ghost function Matching(names: seq<string>, evt: string, counts: string -> nat): map<string, int> {
    map k | k in names && Matches(evt, k) :: counts(k)
  }

  /** One more name is added exactly when it matches. */
  lemma MatchingNext(names: seq<string>, evt: string, counts: string -> nat, k: string)
    requires k !in names
    ensures k !in Matching(names, evt, counts)
    ensures Matching(names + [k], evt, counts)
         == if Matches(evt, k) then Matching(names, evt, counts)[k := counts(k)] else Matching(names, evt, counts)
  {
    hide Matches;
  }

  lemma {:induction false} MatchingIsSum(us: seq<Uncore>, device: string, event: string, counts: string -> nat)
    requires PlainDevices(us) && Distinct(us) && '/' !in device
    ensures Total(Matching(NamesOf(us), Name(device, event), counts)) == DeviceSum(us, device, event, counts)
    decreases |us|
  {
    hide Total, Matching, Name, Matches, NamesOf, Distinct;
    if us == [] {
      NoMatching(Name(device, event), counts);
    } else {
      var n, evt := |us| - 1, Name(device, event);
      DropLast(us);
      MatchingIsSum(us[..n], device, event, counts);
      MatchesIff(device, event, us[n].device, us[n].event);
      NewName(us);
      var k, names := Name(us[n].device, us[n].event), NamesOf(us[..n]);
      MatchingNext(names, evt, counts, k);
      if IsOf(device, event, us[n]) {
        TotalPut(Matching(names, evt, counts), k, counts(k));
      }
    }
  }

  lemma NoMatching(evt: string, counts: string -> nat)
    ensures NamesOf([]) == [] && Total(Matching([], evt, counts)) == 0
  {
    TotalZero(Matching([], evt, counts));
  }

  lemma DropLast(us: seq<Uncore>)
    requires us != [] && Distinct(us)
    ensures Distinct(us[..|us| - 1])
  {
  }

  lemma NewName(us: seq<Uncore>)
    requires us != [] && PlainDevices(us) && Distinct(us)
    ensures var n := |us| - 1;
            NamesOf(us) == NamesOf(us[..n]) + [Name(us[n].device, us[n].event)]
            && Name(us[n].device, us[n].event) !in NamesOf(us[..n])
  {
    var n := |us| - 1;
    forall i | 0 <= i < n
      ensures NamesOf(us[..n])[i] != Name(us[n].device, us[n].event)
    {
      if Name(us[i].device, us[i].event) == Name(us[n].device, us[n].event) {
        NamesDiffer(us[i], us[n]);
      }
    }
  }

  /** Some device of the class has the event, and the class does not end in a digit. */
  ghost predicate IsClass(us: seq<Uncore>, device: string, event: string) {
    device != "" && device[|device| - 1] !in "0123456789" && exists i :: 0 <= i < |us| && IsOf(device, event, us[i])
  }

  lemma SplitsIff(us: seq<Uncore>, device: string, event: string)
    requires PlainDevices(us) && '/' !in device
    ensures Splits(NamesOf(us), Name(device, event)) <==> IsClass(us, device, event)
  {
    IsAggregateIff(device, event);
    forall i | 0 <= i < |us|
      ensures Matches(Name(device, event), NamesOf(us)[i]) <==> IsOf(device, event, us[i])
    {
      MatchesIff(device, event, us[i].device, us[i].event);
    }
  }

  /** The row of an event of a device class is the sum over exactly the devices whose name starts like that; any other
      event has its own count. */
  lemma RowIsDeviceSum(us: seq<Uncore>, evts: seq<string>, counts: string -> nat, out: seq<Row>, r: nat,
                       device: string, event: string)
    requires PlainDevices(us) && Distinct(us) && '/' !in device && r < |out| && RowsAre(NamesOf(us), evts, counts, out)
    requires out[r].evt == Name(device, event)
    ensures out[r].count == if IsClass(us, device, event) then DeviceSum(us, device, event, counts)
                            else counts(Name(device, event))
  {
    hide Total, Matches, IsAggregate, Name, IsClass;
    SplitsIff(us, device, event);
    var evt := Name(device, event);
    assert IsRowOf(NamesOf(us), evts, counts, out[r]);
    var wanted := Wanted(NamesOf(us), evt, counts);
    if Splits(NamesOf(us), evt) {
      MatchingIsSum(us, device, event, counts);
      assert wanted == Matching(NamesOf(us), evt, counts);
    } else {
      assert wanted == map[evt := counts(evt)];
      TotalRemove(wanted, evt);
      assert wanted - {evt} == map[];
      TotalZero(wanted - {evt});
    }
  }
}
