/**
  PmuList::AggregateUncoreData: the readings of the sub-events an uncore event was split into become one row again.
  A pending row is emitted when an event that was not split follows it, or at the end.
*/
module UncoreSum {
  datatype Row = Row(evt: string, cpu: int, count: nat)

  /** The counts reported under name `p`. */
  function Reported(rows: seq<Row>, p: string): nat {
    if rows == [] then 0
    else Reported(rows[..|rows| - 1], p) + if rows[|rows| - 1].evt == p then rows[|rows| - 1].count else 0
  }

  /** The counts read for the children of `p`. */
  function Read(data: seq<Row>, parents: map<string, string>, p: string): nat
    requires forall i :: 0 <= i < |data| ==> data[i].evt in parents
  {
    if data == [] then 0
    else
      var last := data[|data| - 1];
      Read(data[..|data| - 1], parents, p) + if parents[last.evt] == p then last.count else 0
  }

  /** What is pending under `p`. */
  function Pending(rows: map<string, Row>, p: string): nat {
    if p in rows then rows[p].count else 0
  }

  lemma ReportedMore(rows: seq<Row>, r: Row, p: string)
    ensures Reported(rows + [r], p) == Reported(rows, p) + if r.evt == p then r.count else 0
  {
    assert (rows + [r])[..|rows|] == rows;
  }

  /** The keys are the keys of the pending rows, each once, and every pending row carries its own name. */
  ghost predicate KeysMatch(keys: seq<string>, rows: map<string, Row>) {
    && (forall k :: k in rows <==> k in keys) && (forall k :: k in rows ==> rows[k].evt == k)
    && forall i, j :: 0 <= i < j < |keys| ==> keys[i] != keys[j]
  }

  ghost predicate Known(data: seq<Row>, parents: map<string, string>) {
    forall i :: 0 <= i < |data| ==> data[i].evt in parents
  }

  /** One reading per sub-event. */
  ghost predicate ReadOnce(data: seq<Row>, parents: map<string, string>)
    requires Known(data, parents)
  {
    forall i, j :: 0 <= i < j < |data| && parents[data[i].evt] != data[i].evt ==> data[i].evt != data[j].evt
  }

  // ----- Counts are conserved -----

  predicate IsSplit(data: seq<Row>, parents: map<string, string>, i: int)
    requires Known(data, parents) && 0 <= i < |data|
  {
    parents[data[i].evt] != data[i].evt
  }

  /** The events with a pending row after `i` readings: a sub-event opens a row for its event, and a single pending row
      goes out before an event that was not split. */
  ghost function Open(data: seq<Row>, parents: map<string, string>, i: nat): set<string>
    requires Known(data, parents) && i <= |data|
  {
    if i == 0 then {}
    else
      var o := Open(data, parents, i - 1);
      if IsSplit(data, parents, i - 1) then o + {parents[data[i - 1].evt]} else if |o| == 1 then {} else o
  }

  ghost predicate Repeated(data: seq<Row>, i: nat)
    requires i < |data|
  {
    exists j :: 0 <= j < i && data[j].evt == data[i].evt
  }

  /** Reading `i` repeats a sub-event whose event has a pending row: it is not added. */
  ghost predicate Dropped(data: seq<Row>, parents: map<string, string>, i: nat)
    requires Known(data, parents) && i < |data|
  {
    IsSplit(data, parents, i) && parents[data[i].evt] in Open(data, parents, i) && Repeated(data, i)
  }

  /** The counts of `p` dropped among the first `i` readings. */
  ghost function Lost(data: seq<Row>, parents: map<string, string>, i: nat, p: string): nat
    requires Known(data, parents) && i <= |data|
  {
    if i == 0 then 0
    else
      Lost(data, parents, i - 1, p)
      + if Dropped(data, parents, i - 1) && parents[data[i - 1].evt] == p then data[i - 1].count else 0
  }

  ghost predicate Balanced(data: seq<Row>, parents: map<string, string>, i: nat, out: seq<Row>, rows: map<string, Row>)
    requires Known(data, parents) && i <= |data|
  {
    forall p :: Reported(out, p) + Pending(rows, p) + Lost(data, parents, i, p) == Read(data[..i], parents, p)
  }

  /** The sub-events read so far. */
  ghost predicate SeenAre(data: seq<Row>, parents: map<string, string>, seen: set<string>) {
    && Known(data, parents)
    && forall e :: e in seen <==> exists i :: 0 <= i < |data| && data[i].evt == e && parents[e] != e
  }

  lemma ReadMore(data: seq<Row>, parents: map<string, string>, d: Row, p: string)
    requires Known(data, parents) && d.evt in parents
    ensures Known(data + [d], parents)
    ensures Read(data + [d], parents, p) == Read(data, parents, p) + if parents[d.evt] == p then d.count else 0
  {
    assert (data + [d])[..|data|] == data;
  }

  lemma SeenMore(data: seq<Row>, parents: map<string, string>, seen: set<string>, d: Row)
    requires SeenAre(data, parents, seen) && d.evt in parents
    ensures SeenAre(data + [d], parents, if parents[d.evt] == d.evt then seen else seen + {d.evt})
  {
    var more, after := data + [d], if parents[d.evt] == d.evt then seen else seen + {d.evt};
    forall e
      ensures e in after <==> exists i :: 0 <= i < |more| && more[i].evt == e && parents[e] != e
    {
      if e in seen {
        var i :| 0 <= i < |data| && data[i].evt == e && parents[e] != e;
        assert more[i].evt == e;
      }
      assert more[|data|] == d;
    }
  }

  lemma ReadNext(data: seq<Row>, parents: map<string, string>, i: nat, p: string)
    requires Known(data, parents) && i < |data|
    ensures Read(data[..i + 1], parents, p)
         == Read(data[..i], parents, p) + if parents[data[i].evt] == p then data[i].count else 0
  {
    assert data[..i + 1] == data[..i] + [data[i]];
    ReadMore(data[..i], parents, data[i], p);
  }

  lemma BalancedPlain(data: seq<Row>, parents: map<string, string>, i: nat, out: seq<Row>, rows: map<string, Row>)
    requires Known(data, parents) && i < |data| && Balanced(data, parents, i, out, rows) && !IsSplit(data, parents, i)
    ensures Balanced(data, parents, i + 1, out + [data[i]], rows)
  {
    hide Reported, Read;
    forall p
      ensures Reported(out + [data[i]], p) + Pending(rows, p) + Lost(data, parents, i + 1, p)
           == Read(data[..i + 1], parents, p)
    {
      ReportedMore(out, data[i], p);
      ReadNext(data, parents, i, p);
    }
  }

  /** Moving pending row `k` to the output reports it. */
  lemma BalancedFlush(data: seq<Row>, parents: map<string, string>, i: nat, out: seq<Row>, rows: map<string, Row>,
                      k: string)
    requires Known(data, parents) && i <= |data| && Balanced(data, parents, i, out, rows) && k in rows
    requires rows[k].evt == k
    ensures Balanced(data, parents, i, out + [rows[k]], rows - {k})
  {
    hide Reported, Read, Lost;
    forall p
      ensures Reported(out + [rows[k]], p) + Pending(rows - {k}, p) + Lost(data, parents, i, p)
           == Read(data[..i], parents, p)
    {
      ReportedMore(out, rows[k], p);
    }
  }

  /** A sub-event is added to the row of its event, or dropped. */
  lemma BalancedChild(data: seq<Row>, parents: map<string, string>, i: nat, out: seq<Row>, rows: map<string, Row>,
                      row: Row)
    requires Known(data, parents) && i < |data| && Balanced(data, parents, i, out, rows) && IsSplit(data, parents, i)
    requires rows.Keys == Open(data, parents, i)
    requires row.count == Pending(rows, parents[data[i].evt]) + if Dropped(data, parents, i) then 0 else data[i].count
    ensures Balanced(data, parents, i + 1, out, rows[parents[data[i].evt] := row])
  {
    hide Reported, Read, Dropped;
    var q := parents[data[i].evt];
    forall p
      ensures Reported(out, p) + Pending(rows[q := row], p) + Lost(data, parents, i + 1, p)
           == Read(data[..i + 1], parents, p)
    {
      ReadNext(data, parents, i, p);
    }
  }

  /** With one reading per sub-event nothing is dropped. */
  lemma {:induction false} OnceLosesNothing(data: seq<Row>, parents: map<string, string>, i: nat, p: string)
    requires Known(data, parents) && i <= |data| && ReadOnce(data, parents)
    ensures Lost(data, parents, i, p) == 0
  {
    if i > 0 { OnceLosesNothing(data, parents, i - 1, p); }
  }

  /** No reading among the first `i` that counted something is dropped. */
  ghost predicate NoneDropped(data: seq<Row>, parents: map<string, string>, i: nat)
    requires Known(data, parents) && i <= |data|
  {
    forall k :: 0 <= k < i && Dropped(data, parents, k) ==> data[k].count == 0
  }

  ghost predicate LosesNone(data: seq<Row>, parents: map<string, string>, i: nat)
    requires Known(data, parents) && i <= |data|
  {
    forall p :: Lost(data, parents, i, p) == 0
  }

  lemma LosesNoneNext(data: seq<Row>, parents: map<string, string>, n: nat)
    requires Known(data, parents) && n < |data|
    ensures LosesNone(data, parents, n + 1)
       <==> LosesNone(data, parents, n) && (Dropped(data, parents, n) ==> data[n].count == 0)
  {
    hide Dropped;
    assert Lost(data, parents, n + 1, parents[data[n].evt])
        == Lost(data, parents, n, parents[data[n].evt]) + if Dropped(data, parents, n) then data[n].count else 0;
    if LosesNone(data, parents, n + 1) {
      forall p
        ensures Lost(data, parents, n, p) == 0
      {
        assert Lost(data, parents, n + 1, p) == 0;
      }
    }
    if LosesNone(data, parents, n) && (Dropped(data, parents, n) ==> data[n].count == 0) {
      var next := n + 1;
      forall p
        ensures Lost(data, parents, next, p) == 0
      {
        assert Lost(data, parents, n, p) == 0;
      }
    }
  }

  lemma {:induction false} LostIff(data: seq<Row>, parents: map<string, string>, i: nat)
    requires Known(data, parents) && i <= |data|
    ensures LosesNone(data, parents, i) <==> NoneDropped(data, parents, i)
  {
    if i > 0 {
      LostIff(data, parents, i - 1);
      LosesNoneNext(data, parents, i - 1);
      hide Dropped, LosesNone;
    }
  }

  // ----- One row for each event -----

  /** Readings of one event are next to each other, and an event that was not split has only one. */
  ghost predicate Apart(data: seq<Row>, parents: map<string, string>) {
    && Known(data, parents)
    && (forall i, j, k :: 0 <= i < j < k < |data| && parents[data[i].evt] == parents[data[k].evt] ==>
          parents[data[j].evt] == parents[data[i].evt])
    && forall i, k :: 0 <= i < |data| && 0 <= k < |data| && i != k && parents[data[i].evt] == data[i].evt ==>
         parents[data[k].evt] != data[i].evt
  }

  /** Every event read so far has exactly one row, emitted or pending, and no emitted one is read again. */
  ghost predicate Tidy(data: seq<Row>, parents: map<string, string>, i: nat, out: seq<Row>, names: set<string>) {
    && Known(data, parents) && i <= |data|
    && (forall r, t :: 0 <= r < t < |out| ==> out[r].evt != out[t].evt)
    && (forall r :: 0 <= r < |out| ==> out[r].evt !in names)
    && (forall r, k :: 0 <= r < |out| && i <= k < |data| ==> parents[data[k].evt] != out[r].evt)
    && (forall j :: 0 <= j < i ==> parents[data[j].evt] in names || HasRow(out, parents[data[j].evt]))
    && (forall p :: p in names ==> WasRead(data, parents, i, p))
    && (forall r :: 0 <= r < |out| ==> WasRead(data, parents, i, out[r].evt))
  }

  ghost predicate HasRow(out: seq<Row>, p: string) {
    exists r :: 0 <= r < |out| && out[r].evt == p
  }

  ghost predicate WasRead(data: seq<Row>, parents: map<string, string>, i: nat, p: string)
    requires Known(data, parents) && i <= |data|
  {
    exists j :: 0 <= j < i && parents[data[j].evt] == p
  }

  lemma HasRowMore(out: seq<Row>, r: Row, p: string)
    ensures HasRow(out + [r], p) <==> HasRow(out, p) || r.evt == p
  {
    var more := out + [r];
    assert more[|out|] == r && forall t :: 0 <= t < |out| ==> more[t] == out[t];
  }

  lemma WasReadMore(data: seq<Row>, parents: map<string, string>, i: nat, p: string)
    requires Known(data, parents) && i < |data|
    ensures WasRead(data, parents, i + 1, p) <==> WasRead(data, parents, i, p) || parents[data[i].evt] == p
  {
  }

  /** A pending row whose event is over may be emitted. */
  lemma TidyFlush(data: seq<Row>, parents: map<string, string>, i: nat, out: seq<Row>, names: set<string>, row: Row)
    requires Tidy(data, parents, i, out, names) && row.evt in names
    requires forall k :: i <= k < |data| ==> parents[data[k].evt] != row.evt
    ensures Tidy(data, parents, i, out + [row], names - {row.evt})
  {
    hide HasRow, WasRead;
    forall p
      ensures HasRow(out + [row], p) <==> HasRow(out, p) || row.evt == p
    {
      HasRowMore(out, row, p);
    }
  }

  lemma TidyPlain(data: seq<Row>, parents: map<string, string>, i: nat, out: seq<Row>, names: set<string>)
    requires Tidy(data, parents, i, out, names) && Apart(data, parents) && i < |data|
    requires parents[data[i].evt] == data[i].evt
    ensures Tidy(data, parents, i + 1, out + [data[i]], names)
  {
    assert data[i].evt !in names;
    hide HasRow, WasRead;
    forall p
      ensures HasRow(out + [data[i]], p) <==> HasRow(out, p) || data[i].evt == p
      ensures WasRead(data, parents, i + 1, p) <==> WasRead(data, parents, i, p) || parents[data[i].evt] == p
    {
      HasRowMore(out, data[i], p);
      WasReadMore(data, parents, i, p);
    }
  }

  lemma TidyChild(data: seq<Row>, parents: map<string, string>, i: nat, out: seq<Row>, names: set<string>)
    requires Tidy(data, parents, i, out, names) && i < |data|
    ensures Tidy(data, parents, i + 1, out, names + {parents[data[i].evt]})
  {
    hide HasRow, WasRead;
    var p, more := parents[data[i].evt], names + {parents[data[i].evt]};
    forall q
      ensures WasRead(data, parents, i + 1, q) <==> WasRead(data, parents, i, q) || p == q
    {
      WasReadMore(data, parents, i, q);
    }
    assert forall q :: q in more <==> q in names || q == p;
    assert forall r :: 0 <= r < |out| ==> out[r].evt != p && out[r].evt !in more;
    assert forall j :: 0 <= j < i + 1 ==> parents[data[j].evt] in more || HasRow(out, parents[data[j].evt]);
    assert forall q :: q in more ==> WasRead(data, parents, i + 1, q);
    assert forall r :: 0 <= r < |out| ==> WasRead(data, parents, i + 1, out[r].evt);
  }

  // ----- The order of the rows -----

  function Names(rows: seq<Row>): (r: seq<string>)
    ensures |r| == |rows| && forall i :: 0 <= i < |rows| ==> r[i] == rows[i].evt
  {
    seq(|rows|, i requires 0 <= i < |rows| => rows[i].evt)
  }

  lemma NamesMore(rows: seq<Row>, r: Row)
    ensures Names(rows + [r]) == Names(rows) + [r.evt]
  {
  }

  /** The events of the first `i` readings, in the order they were read. */
  ghost function Order(data: seq<Row>, parents: map<string, string>, i: nat): seq<string>
    requires Known(data, parents) && i <= |data|
  {
    if i == 0 then []
    else if i >= 2 && parents[data[i - 2].evt] == parents[data[i - 1].evt] then Order(data, parents, i - 1)
    else Order(data, parents, i - 1) + [parents[data[i - 1].evt]]
  }

  /** Among the first `i` readings two different split events follow each other at reading `a`. */
  ghost predicate Adjoin(data: seq<Row>, parents: map<string, string>, a: int, i: nat)
    requires Known(data, parents) && i <= |data|
  {
    0 <= a && a + 1 < i && IsSplit(data, parents, a) && IsSplit(data, parents, a + 1)
    && parents[data[a].evt] != parents[data[a + 1].evt]
  }

  ghost predicate Adjacent(data: seq<Row>, parents: map<string, string>, i: nat)
    requires Known(data, parents) && i <= |data|
  {
    exists a :: Adjoin(data, parents, a, i)
  }

  /** An event that was not split is read after two adjacent split ones. */
  ghost predicate Crowded(data: seq<Row>, parents: map<string, string>, i: nat)
    requires Known(data, parents) && i <= |data|
  {
    exists c :: 0 <= c < i && !IsSplit(data, parents, c) && Adjacent(data, parents, c)
  }

  /** The first pending row belongs before a row that is already out. */
  ghost predicate Late(order: seq<string>, out: seq<string>, keys: seq<string>) {
    |keys| >= 2 && exists r, x, y :: 0 <= r < |out| && 0 <= x < y < |order| && order[x] == keys[0] && order[y] == out[r]
  }

  ghost predicate Lined(data: seq<Row>, parents: map<string, string>, i: nat, out: seq<string>, keys: seq<string>) {
    && Known(data, parents) && i <= |data| && (|keys| >= 2 <==> Adjacent(data, parents, i))
    && (|keys| == 1 ==> i > 0 && IsSplit(data, parents, i - 1))
    && (i > 0 && IsSplit(data, parents, i - 1) ==> parents[data[i - 1].evt] in keys)
    && (if Crowded(data, parents, i) then Late(Order(data, parents, i), out, keys)
        else out + keys == Order(data, parents, i))
  }

  lemma AdjacentMore(data: seq<Row>, parents: map<string, string>, i: nat)
    requires Known(data, parents) && i < |data|
    ensures Adjacent(data, parents, i + 1) <==> Adjacent(data, parents, i) || Adjoin(data, parents, i - 1, i + 1)
  {
    if Adjacent(data, parents, i) {
      var a :| Adjoin(data, parents, a, i);
      assert Adjoin(data, parents, a, i + 1);
    }
    if Adjacent(data, parents, i + 1) {
      var a :| Adjoin(data, parents, a, i + 1);
      assert a == i - 1 || Adjoin(data, parents, a, i);
    }
  }

  lemma CrowdedMore(data: seq<Row>, parents: map<string, string>, i: nat)
    requires Known(data, parents) && i < |data|
    ensures Crowded(data, parents, i + 1) <==>
            Crowded(data, parents, i) || (!IsSplit(data, parents, i) && Adjacent(data, parents, i))
  {
    hide Adjacent;
    if Crowded(data, parents, i) {
      var c :| 0 <= c < i && !IsSplit(data, parents, c) && Adjacent(data, parents, c);
      assert 0 <= c < i + 1;
    }
  }

  lemma LateMore(order: seq<string>, out: seq<string>, keys: seq<string>, order1: seq<string>, out1: seq<string>,
                 keys1: seq<string>)
    requires Late(order, out, keys) && order <= order1 && out <= out1 && keys <= keys1
    ensures Late(order1, out1, keys1)
  {
    var r, x, y :| 0 <= r < |out| && 0 <= x < y < |order| && order[x] == keys[0] && order[y] == out[r];
    assert order1[x] == order[x] && order1[y] == order[y] && out1[r] == out[r] && keys1[0] == keys[0];
  }

  lemma LateNow(order: seq<string>, out: seq<string>, keys: seq<string>, evt: string)
    requires out + keys == order && |keys| >= 2
    ensures Late(order + [evt], out + [evt], keys)
  {
    var order1, out1 := order + [evt], out + [evt];
    assert order1[|out|] == keys[0] && order1[|order|] == evt && out1[|out|] == evt;
  }

  /** A reading of an event that was not split, when a single pending row went out before it. */
  lemma LinedPlain(data: seq<Row>, parents: map<string, string>, i: nat, out: seq<string>, keys: seq<string>)
    requires Apart(data, parents) && i < |data| && !IsSplit(data, parents, i) && Lined(data, parents, i, out, keys)
    ensures |keys| == 1 ==> Lined(data, parents, i + 1, out + keys + [data[i].evt], [])
    ensures |keys| != 1 ==> Lined(data, parents, i + 1, out + [data[i].evt], keys)
  {
    var order, evt := Order(data, parents, i), data[i].evt;
    AdjacentMore(data, parents, i);
    CrowdedMore(data, parents, i);
    assert Order(data, parents, i + 1) == order + [evt];
    hide Apart, Adjacent, Crowded, Order, Late;
    if Crowded(data, parents, i) {
      LateSize(order, out, keys);
      LateMore(order, out, keys, order + [evt], out + [evt], keys);
    } else if |keys| >= 2 {
      LateNow(order, out, keys, evt);
    } else if |keys| == 0 {
      assert out + keys == out && out + [evt] + keys == out + [evt];
    } else {
      assert out + keys + [evt] + [] == out + keys + [evt];
    }
  }

  lemma LateSize(order: seq<string>, out: seq<string>, keys: seq<string>)
    requires Late(order, out, keys)
    ensures |keys| >= 2
  {
  }

  /** A pending event that is read was read just before. */
  lemma JustRead(data: seq<Row>, parents: map<string, string>, i: nat, keys: seq<string>)
    requires Apart(data, parents) && i < |data| && IsSplit(data, parents, i)
    requires i > 0 && IsSplit(data, parents, i - 1) ==> parents[data[i - 1].evt] in keys
    requires parents[data[i].evt] in keys ==> WasRead(data, parents, i, parents[data[i].evt])
    ensures parents[data[i].evt] in keys <==> i > 0 && parents[data[i - 1].evt] == parents[data[i].evt]
  {
    if parents[data[i].evt] in keys {
      var j :| 0 <= j < i && parents[data[j].evt] == parents[data[i].evt];
      assert j < i - 1 ==> parents[data[i - 1].evt] == parents[data[j].evt];
    }
  }

  /** A reading of a sub-event: its event was read just before, or is new. */
  lemma LinedChild(data: seq<Row>, parents: map<string, string>, i: nat, out: seq<string>, keys: seq<string>)
    requires Apart(data, parents) && i < |data| && IsSplit(data, parents, i) && Lined(data, parents, i, out, keys)
    requires parents[data[i].evt] in keys ==> WasRead(data, parents, i, parents[data[i].evt])
    ensures Lined(data, parents, i + 1, out,
                  if parents[data[i].evt] in keys then keys else keys + [parents[data[i].evt]])
  {
    var order, p := Order(data, parents, i), parents[data[i].evt];
    AdjacentMore(data, parents, i);
    CrowdedMore(data, parents, i);
    JustRead(data, parents, i, keys);
    assert Order(data, parents, i + 1) == if p in keys then order else order + [p];
    hide Apart, Adjacent, Crowded, Order, Late;
    if Crowded(data, parents, i) {
      LateSize(order, out, keys);
      LateMore(order, out, keys, order, out, keys);
      LateMore(order, out, keys, order + [p], out, keys + [p]);
    } else {
      assert out + (keys + [p]) == out + keys + [p];
    }
  }

  // ----- The aggregation -----

  /** What is promised of the output: event by event all counts but the dropped ones, and one row for each event. */
  ghost predicate Aggregated(data: seq<Row>, parents: map<string, string>, out: seq<Row>)
    requires Known(data, parents)
  {
    && (forall p :: Reported(out, p) + Lost(data, parents, |data|, p) == Read(data, parents, p))
    && (Apart(data, parents) ==> Tidy(data, parents, |data|, out, {}))
    && (Apart(data, parents) ==> (Names(out) == Order(data, parents, |data|) <==> !Crowded(data, parents, |data|)))
  }

  /** The state of the loop after `i` readings. */
  ghost predicate Good(data: seq<Row>, parents: map<string, string>, i: nat, out: seq<Row>, rows: map<string, Row>,
                       keys: seq<string>, seen: set<string>)
    requires Known(data, parents) && i <= |data|
  {
    && KeysMatch(keys, rows) && SeenAre(data[..i], parents, seen)
    && Balanced(data, parents, i, out, rows) && rows.Keys == Open(data, parents, i)
    && (Apart(data, parents) ==> Tidy(data, parents, i, out, rows.Keys) && Lined(data, parents, i, Names(out), keys))
  }

  /** A reading of an event that was not split; a single pending row goes out before it. */
  method Plain(data: seq<Row>, parents: map<string, string>, i: nat, out0: seq<Row>, rows0: map<string, Row>,
               keys0: seq<string>, ghost seen: set<string>)
    returns (out: seq<Row>, rows: map<string, Row>, keys: seq<string>)
    requires Known(data, parents) && i < |data| && parents[data[i].evt] == data[i].evt
    requires Good(data, parents, i, out0, rows0, keys0, seen)
    ensures Good(data, parents, i + 1, out, rows, keys, seen)
  {
    hide Balanced, Tidy, Apart, SeenAre, Lined, Names;
    out, rows, keys := out0, rows0, keys0;
    assert |rows| == |rows.Keys|;
    KeysSize(rows, keys);
    if Apart(data, parents) {
      LinedPlain(data, parents, i, Names(out), keys);
    }
    if |rows| == 1 {
      var k := OnlyKey(rows, keys);
      NamesMore(out, rows[k]);
      BalancedFlush(data, parents, i, out, rows, k);
      if Apart(data, parents) {
        EventOver(data, parents, i, out, rows.Keys, k);
        TidyFlush(data, parents, i, out, rows.Keys, rows[k]);
      }
      Emptied(rows, k);
      out, rows, keys := out + [rows[k]], map[], [];
    }
    assert data[..i + 1] == data[..i] + [data[i]];
    SeenMore(data[..i], parents, seen, data[i]);
    BalancedPlain(data, parents, i, out, rows);
    if Apart(data, parents) {
      TidyPlain(data, parents, i, out, rows.Keys);
    }
    NamesMore(out, data[i]);
    out := out + [data[i]];
  }

  lemma KeysSize(rows: map<string, Row>, keys: seq<string>)
    requires KeysMatch(keys, rows)
    ensures |keys| == |rows|
  {
    var ks := set k | k in keys;
    assert forall k :: k in rows.Keys <==> k in ks;
    assert rows.Keys == ks;
    DistinctSize(keys);
  }

  /** The one key of a map of one row, which is the first of the recorded keys. */
  method OnlyKey(rows: map<string, Row>, keys: seq<string>) returns (k: string)
    requires KeysMatch(keys, rows) && |rows| == 1
    ensures k in rows && rows[k].evt == k && keys == [k] && rows.Keys == {k}
  {
    KeysOfOne(rows, keys);
    k := keys[0];
  }

  lemma KeysOfOne(rows: map<string, Row>, keys: seq<string>)
    requires KeysMatch(keys, rows) && |rows| == 1
    ensures |keys| == 1 && keys[0] in rows && rows.Keys == {keys[0]}
  {
    var ks := set k | k in keys;
    assert forall k :: k in rows.Keys <==> k in ks;
    assert rows.Keys == ks;
    DistinctSize(keys);
    assert keys == [keys[0]];
  }

  lemma {:induction false} DistinctSize(keys: seq<string>)
    requires forall i, j :: 0 <= i < j < |keys| ==> keys[i] != keys[j]
    ensures |set k | k in keys| == |keys|
  {
    if keys != [] {
      var init, last := keys[..|keys| - 1], keys[|keys| - 1];
      DistinctSize(init);
      var a, b := set k | k in init, set k | k in keys;
      assert keys == init + [last];
      assert forall k :: k in b <==> k in a || k == last;
      assert b == a + {last} && last !in a;
    }
  }

  lemma Emptied(rows: map<string, Row>, k: string)
    requires rows.Keys == {k}
    ensures rows - {k} == map[] && rows.Keys - {k} == {}
  {
  }

  lemma EventOver(data: seq<Row>, parents: map<string, string>, i: nat, out: seq<Row>, names: set<string>, p: string)
    requires Apart(data, parents) && Tidy(data, parents, i, out, names) && i < |data|
    requires parents[data[i].evt] == data[i].evt
    requires p in names
    ensures forall k :: i <= k < |data| ==> parents[data[k].evt] != p
  {
    var j :| 0 <= j < i && parents[data[j].evt] == p;
  }

  /** A reading of a sub-event: the first one of its event opens a row, later ones add to it. */
  method Child(data: seq<Row>, parents: map<string, string>, i: nat, out: seq<Row>, rows0: map<string, Row>,
               keys0: seq<string>, seen0: set<string>)
    returns (rows: map<string, Row>, keys: seq<string>, seen: set<string>)
    requires Known(data, parents) && i < |data| && parents[data[i].evt] != data[i].evt
    requires Good(data, parents, i, out, rows0, keys0, seen0)
    ensures Good(data, parents, i + 1, out, rows, keys, seen)
  {
    hide Balanced, Tidy, Apart, SeenAre, KeysMatch, Lined, Names;
    var d, parent := data[i], parents[data[i].evt];
    rows, keys := rows0, keys0;
    assert data[..i + 1] == data[..i] + [data[i]];
    SeenMore(data[..i], parents, seen0, d);
    SeenIsRepeated(data, parents, i, seen0);
    if Apart(data, parents) {
      PendingWasRead(data, parents, i, out, rows, keys);
      LinedChild(data, parents, i, Names(out), keys);
      TidyChild(data, parents, i, out, rows.Keys);
    }
    KeysKept(keys, rows, parent);
    var row := if parent !in rows then Row(parent, 0, d.count)
               else if d.evt !in seen0 then rows[parent].(count := rows[parent].count + d.count) else rows[parent];
    KeysSet(keys, rows, parent, row);
    BalancedChild(data, parents, i, out, rows, row);
    if parent !in rows {
      keys := keys + [parent];
    }
    rows, seen := rows[parent := row], seen0 + {d.evt};
  }

  lemma PendingWasRead(data: seq<Row>, parents: map<string, string>, i: nat, out: seq<Row>, rows: map<string, Row>,
                       keys: seq<string>)
    requires Tidy(data, parents, i, out, rows.Keys) && KeysMatch(keys, rows) && i < |data|
    ensures forall p :: p in keys <==> p in rows
    ensures forall p :: p in keys ==> WasRead(data, parents, i, p)
  {
  }

  lemma KeysKept(keys: seq<string>, rows: map<string, Row>, p: string)
    requires KeysMatch(keys, rows)
    ensures p in rows ==> rows[p].evt == p
  {
  }

  lemma KeysSet(keys: seq<string>, rows: map<string, Row>, p: string, row: Row)
    requires KeysMatch(keys, rows) && row.evt == p
    ensures KeysMatch(if p in rows then keys else keys + [p], rows[p := row])
    ensures rows[p := row].Keys == rows.Keys + {p}
  {
  }

  lemma SeenIsRepeated(data: seq<Row>, parents: map<string, string>, i: nat, seen: set<string>)
    requires Known(data, parents) && i < |data| && IsSplit(data, parents, i) && SeenAre(data[..i], parents, seen)
    ensures data[i].evt in seen <==> Repeated(data, i)
  {
    if Repeated(data, i) {
      var j :| 0 <= j < i && data[j].evt == data[i].evt;
      assert data[..i][j].evt == data[i].evt;
    }
  }

  /** AggregateUncoreData. */
  method Aggregate(data: seq<Row>, parents: map<string, string>) returns (out: seq<Row>)
    requires Known(data, parents)
    ensures Aggregated(data, parents, out)
  {
    var rows: map<string, Row>, keys: seq<string>, seen: set<string> := map[], [], {};
    hide Good, Aggregated;
    out := [];
    StartGood(data, parents);
    var i := 0;
    while i < |data|
      invariant i <= |data| && Good(data, parents, i, out, rows, keys, seen)
    {
      if parents[data[i].evt] == data[i].evt {
        out, rows, keys := Plain(data, parents, i, out, rows, keys, seen);
      } else {
        rows, keys, seen := Child(data, parents, i, out, rows, keys, seen);
      }
      i := i + 1;
    }
    out := Drain(data, parents, out, rows, keys, seen);
  }

  lemma StartGood(data: seq<Row>, parents: map<string, string>)
    requires Known(data, parents)
    ensures Good(data, parents, 0, [], map[], [], {})
  {
    assert data[..0] == [];
  }

  /** The last loop: the pending rows in the order their events were first read. */
  method Drain(data: seq<Row>, parents: map<string, string>, out0: seq<Row>, rows: map<string, Row>, keys: seq<string>,
               ghost seen: set<string>)
    returns (out: seq<Row>)
    requires Known(data, parents) && Good(data, parents, |data|, out0, rows, keys, seen)
    ensures Aggregated(data, parents, out)
  {
    hide Balanced, Tidy, Apart, SeenAre, Lined, Names, Open, Lost, Reported, Read, Crowded, Order;
    assert data[..|data|] == data;
    out := out0;
    ghost var left := rows;
    assert keys[..0] == [] && Names(out0) + [] == Names(out0);
    for k := 0 to |keys|
      invariant Names(out) == Names(out0) + keys[..k]
      invariant forall e :: e in left <==> e in keys[k..]
      invariant forall e :: e in left ==> e in rows && left[e] == rows[e]
      invariant Balanced(data, parents, |data|, out, left)
      invariant Apart(data, parents) ==> Tidy(data, parents, |data|, out, left.Keys)
    {
      var key := keys[k];
      assert key in keys[k..];
      BalancedFlush(data, parents, |data|, out, left, key);
      if Apart(data, parents) {
        TidyFlush(data, parents, |data|, out, left.Keys, left[key]);
        assert (left - {key}).Keys == left.Keys - {key};
      }
      NamesMore(out, rows[key]);
      assert keys[..k + 1] == keys[..k] + [key];
      out, left := out + [rows[key]], left - {key};
      assert keys[k..] == [key] + keys[k + 1..];
    }
    assert keys[..|keys|] == keys;
    Drained(data, parents, out, left);
    if Apart(data, parents) {
      OrderIff(data, parents, Names(out0), keys, out);
    }
  }

  lemma Drained(data: seq<Row>, parents: map<string, string>, out: seq<Row>, left: map<string, Row>)
    requires Known(data, parents) && forall e :: e !in left
    requires Balanced(data, parents, |data|, out, left)
    requires Apart(data, parents) ==> Tidy(data, parents, |data|, out, left.Keys)
    ensures forall p :: Reported(out, p) + Lost(data, parents, |data|, p) == Read(data, parents, p)
    ensures Apart(data, parents) ==> Tidy(data, parents, |data|, out, {})
  {
    hide Tidy, Apart, Reported, Read, Lost;
    assert data[..|data|] == data;
    var none: map<string, Row> := map[];
    assert forall e :: e in left <==> e in none;
    assert left == none;
    assert none.Keys == {};
    assert forall p :: Pending(none, p) == 0;
  }

  /** The rows are in the order of the events exactly when no unsplit event follows two adjacent split ones. */
  lemma OrderIff(data: seq<Row>, parents: map<string, string>, out: seq<string>, keys: seq<string>, rows: seq<Row>)
    requires Lined(data, parents, |data|, out, keys) && Names(rows) == out + keys
    requires Tidy(data, parents, |data|, rows, {})
    ensures Names(rows) == Order(data, parents, |data|) <==> !Crowded(data, parents, |data|)
  {
    var order := Order(data, parents, |data|);
    hide Crowded, Order, Adjacent;
    if Crowded(data, parents, |data|) {
      var r, x, y :| 0 <= r < |out| && 0 <= x < y < |order| && order[x] == keys[0] && order[y] == out[r];
      assert forall s, t :: 0 <= s < t < |rows| ==> Names(rows)[s] != Names(rows)[t];
      assert Names(rows)[r] == out[r] && Names(rows)[|out|] == keys[0];
    }
  }

  lemma {:induction false} ReportedOnce(out: seq<Row>, r: nat)
    requires r < |out| && forall s, t :: 0 <= s < t < |out| ==> out[s].evt != out[t].evt
    ensures Reported(out, out[r].evt) == out[r].count
  {
    var init := out[..|out| - 1];
    if r < |init| {
      ReportedOnce(init, r);
    } else {
      ReportedNone(init, out[r].evt);
    }
  }

  lemma {:induction false} ReportedNone(out: seq<Row>, p: string)
    requires forall r :: 0 <= r < |out| ==> out[r].evt != p
    ensures Reported(out, p) == 0
  {
    if out != [] {
      ReportedNone(out[..|out| - 1], p);
    }
  }

  lemma RowsOrdered(data: seq<Row>, parents: map<string, string>, out: seq<Row>)
    requires Known(data, parents) && Apart(data, parents) && Aggregated(data, parents, out)
    ensures Names(out) == Order(data, parents, |data|) <==> !Crowded(data, parents, |data|)
  {
  }

  /** With one reading per sub-event and events apart: every event read has exactly one row, and the row's count
      is the sum of the counts of its sub-events. */
  lemma OneRowEach(data: seq<Row>, parents: map<string, string>, out: seq<Row>)
    requires Known(data, parents) && ReadOnce(data, parents) && Apart(data, parents) && Aggregated(data, parents, out)
    ensures forall r :: 0 <= r < |out| ==> out[r].count == Read(data, parents, out[r].evt)
    ensures forall r, t :: 0 <= r < t < |out| ==> out[r].evt != out[t].evt
    ensures forall p :: HasRow(out, p) <==> WasRead(data, parents, |data|, p)
  {
    forall r | 0 <= r < |out|
      ensures out[r].count == Read(data, parents, out[r].evt)
    {
      ReportedOnce(out, r);
      OnceLosesNothing(data, parents, |data|, out[r].evt);
    }
  }

  ghost predicate Conserved(data: seq<Row>, parents: map<string, string>, out: seq<Row>)
    requires Known(data, parents)
  {
    forall p :: Reported(out, p) == Read(data, parents, p)
  }

  /** The counts of every event are conserved exactly when no reading that counted is dropped. */
  lemma ConservedIff(data: seq<Row>, parents: map<string, string>, out: seq<Row>)
    requires Known(data, parents) && Aggregated(data, parents, out)
    ensures Conserved(data, parents, out) <==> NoneDropped(data, parents, |data|)
  {
    hide Reported, Read, Lost, NoneDropped;
    LostIff(data, parents, |data|);
    if Conserved(data, parents, out) {
      forall p
        ensures Lost(data, parents, |data|, p) == 0
      {
        assert Reported(out, p) + Lost(data, parents, |data|, p) == Read(data, parents, p);
      }
    }
    if LosesNone(data, parents, |data|) {
      forall p
        ensures Reported(out, p) == Read(data, parents, p)
      {
        assert Reported(out, p) + Lost(data, parents, |data|, p) == Read(data, parents, p);
      }
    }
  }
}
