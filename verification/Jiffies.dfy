/** Processor time from `/proc/stat`: cumulative jiffies and the busy percentage between two readings. */
module Jiffies {
  import opened Bytes

  datatype CpuStat = CpuStat(
    user: u64, nice: u64, system: u64, idle: u64, iowait: u64, irq: u64, softirq: u64, steal: u64)
  {
    function BusySum(): nat { user + nice + system + irq + softirq + steal }

    function Sum(): nat { BusySum() + idle + iowait }

    /** The 64-bit sums the program computes. */
    function Total(): u64 { Sum() % WRAP }

    function Busy(): u64 { BusySum() % WRAP }
  }

  function Minus(a: u64, b: u64): u64 {
    (a - b) % WRAP
  }

  function PctBusy(prev: CpuStat, cur: CpuStat): (pct: real)
    ensures 0.0 <= pct <= 100.0
  {
    var dt, db := Minus(cur.Total(), prev.Total()), Minus(cur.Busy(), prev.Busy());
    if dt == 0 then 0.0
    else
      var v := db as real * 100.0 / dt as real;
      var v := if v < 0.0 then 0.0 else v;
      if v > 100.0 then 100.0 else v
  }

  /** No counter went back, and fewer than 2^64 jiffies passed. */
  predicate Grows(prev: CpuStat, cur: CpuStat) {
    && prev.user <= cur.user && prev.nice <= cur.nice && prev.system <= cur.system && prev.idle <= cur.idle
    && prev.iowait <= cur.iowait && prev.irq <= cur.irq && prev.softirq <= cur.softirq && prev.steal <= cur.steal
    && cur.Sum() - prev.Sum() < WRAP
  }

  lemma MinusOfSums(a: nat, b: nat)
    requires 0 <= a - b < WRAP
    ensures Minus(a % WRAP, b % WRAP) == a - b
  {
    assert (a % WRAP - b % WRAP) % WRAP == (a - b) % WRAP by {
      assert a % WRAP - b % WRAP == (a - b) + WRAP * (b / WRAP - a / WRAP);
      ModOfShift(a - b, b / WRAP - a / WRAP);
    }
  }

  lemma ModOfShift(x: int, k: int)
    requires 0 <= x < WRAP
    ensures (x + WRAP * k) % WRAP == x
  {
  }

  lemma Ratio(db: nat, dt: nat)
    requires 0 < dt
    ensures db <= dt <==> db as real * 100.0 / dt as real <= 100.0
    ensures db as real * 100.0 / dt as real >= 0.0
    ensures db as real * 100.0 / dt as real == db as real / dt as real * 100.0
  {
    var q := db as real / dt as real;
    assert q * dt as real == db as real;
    assert db <= dt <==> q <= 1.0;
  }

  /** Whatever the readings: the lower clamp never acts, and the upper one exactly when the 64-bit
      difference of the busy sums exceeds that of the totals. */
  lemma ClampExact(prev: CpuStat, cur: CpuStat)
    ensures var dt, db := Minus(cur.Total(), prev.Total()), Minus(cur.Busy(), prev.Busy());
      PctBusy(prev, cur) == if dt == 0 then 0.0 else if db > dt then 100.0 else db as real / dt as real * 100.0
  {
    var dt, db := Minus(cur.Total(), prev.Total()), Minus(cur.Busy(), prev.Busy());
    if dt > 0 {
      Ratio(db, dt);
    }
  }

  /** `pct` is the share of busy jiffies, in per cent, among those between the two readings. */
  predicate IsBusyShare(prev: CpuStat, cur: CpuStat, pct: real) {
    var dt, db := cur.Sum() - prev.Sum(), cur.BusySum() - prev.BusySum();
    0 <= db <= dt && pct == if dt == 0 then 0.0 else db as real / dt as real * 100.0
  }

  /** Between readings that grew, sums that wrapped included, the percentage is the true share of busy
      jiffies and the clamp never acts. */
  lemma BusyShare(prev: CpuStat, cur: CpuStat)
    requires Grows(prev, cur)
    ensures IsBusyShare(prev, cur, PctBusy(prev, cur))
  {
    MinusOfSums(cur.Sum(), prev.Sum());
    MinusOfSums(cur.BusySum(), prev.BusySum());
    ClampExact(prev, cur);
  }

  /** The percentage by field, in exact terms: user, nice, system, irq, softirq and steal are busy, idle and
      iowait are not. If none of the eight went back and fewer than 2^64 jiffies passed, then the
      percentage times all of them is a hundred times the busy ones. */
  lemma BusyByFields(prev: CpuStat, cur: CpuStat, busy: int, idle: int)
    requires Grows(prev, cur)
    requires busy == (cur.user - prev.user) + (cur.nice - prev.nice) + (cur.system - prev.system)
                     + (cur.irq - prev.irq) + (cur.softirq - prev.softirq) + (cur.steal - prev.steal)
    requires idle == (cur.idle - prev.idle) + (cur.iowait - prev.iowait)
    ensures busy >= 0 && idle >= 0
    ensures busy + idle > 0 ==> PctBusy(prev, cur) == busy as real / (busy + idle) as real * 100.0
    ensures busy == 0 ==> PctBusy(prev, cur) == 0.0
    ensures busy > 0 && idle == 0 ==> PctBusy(prev, cur) == 100.0
  {
    BusyShare(prev, cur);
    ByParts(prev, cur, PctBusy(prev, cur), busy, idle);
  }

  lemma ByParts(prev: CpuStat, cur: CpuStat, pct: real, busy: int, idle: int)
    requires IsBusyShare(prev, cur, pct)
    requires busy == cur.BusySum() - prev.BusySum() && busy + idle == cur.Sum() - prev.Sum()
    ensures busy + idle > 0 ==> pct == busy as real / (busy + idle) as real * 100.0
    ensures busy == 0 ==> pct == 0.0
    ensures busy > 0 && idle == 0 ==> pct == 100.0
  {
    if busy > 0 {
      SelfRatio(busy as real);
    }
  }

  lemma SelfRatio(x: real)
    requires x > 0.0
    ensures x / x == 1.0
  {
  }
}
