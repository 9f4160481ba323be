/** struct bpf_perf_event_value, the cell type of every BPF map here, with the wrapping arithmetic the
    kernel programs do on it. */
module BpfValue {
  import opened Words

  datatype Value = Value(counter: u64, enabled: u64, running: u64)

  const ZERO: Value := Value(0, 0, 0)

  ghost function ZeroRow(n: nat): seq<Value> { seq(n, _ => ZERO) }

  function Delta(cur: Value, prev: Value): Value {
    Value(Sub64(cur.counter, prev.counter), Sub64(cur.enabled, prev.enabled), Sub64(cur.running, prev.running))
  }

  function Plus(acc: Value, d: Value): Value {
    Value(Add64(acc.counter, d.counter), Add64(acc.enabled, d.enabled), Add64(acc.running, d.running))
  }

  /** Charging an interval adds its length modulo 2^64. */
  lemma ChargeCong(others: int, acc: u64, cur: u64, prev: u64, total: int)
    requires Cong(others + acc, total)
    ensures Cong(others + Add64(acc, Sub64(cur, prev)), total + (cur - prev))
  {
    var charged := Add64(acc, Sub64(cur, prev));
    CongWrap(cur - prev);
    CongRefl(acc);
    CongSum(acc, acc, Sub64(cur, prev), cur - prev);
    CongWrap(acc + Sub64(cur, prev));
    CongTrans(charged, acc + Sub64(cur, prev), acc + (cur - prev));
    CongRefl(others);
    CongSum(others, others, charged, acc + (cur - prev));
    CongRefl(cur - prev);
    CongSum(others + acc, total, cur - prev, cur - prev);
    CongTrans(others + charged, others + acc + (cur - prev), total + (cur - prev));
  }

  /** So do all three fields of a cell, each by its own difference. */
  lemma ChargeFields(acc: Value, cur: Value, prev: Value)
    ensures var t := Plus(acc, Delta(cur, prev));
            && Cong(t.counter, acc.counter + (cur.counter - prev.counter))
            && Cong(t.enabled, acc.enabled + (cur.enabled - prev.enabled))
            && Cong(t.running, acc.running + (cur.running - prev.running))
  {
    CongRefl(acc.counter);
    CongRefl(acc.enabled);
    CongRefl(acc.running);
    ChargeCong(0, acc.counter, cur.counter, prev.counter, acc.counter);
    ChargeCong(0, acc.enabled, cur.enabled, prev.enabled, acc.enabled);
    ChargeCong(0, acc.running, cur.running, prev.running, acc.running);
  }
}
