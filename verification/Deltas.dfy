/** Rates computed from the growth of counters between samples, with the last sample of every key
    kept between observations. */
module Deltas {
  import opened Bytes

  /** A counter's value at a time in seconds. */
  datatype Sample = Sample(at: real, count: nat)

  /** Growth per second; zero over 50 milliseconds or less, and when the counter went back. */
  function Rate(prev: Option<Sample>, cur: Sample): real {
    if prev.Some? && cur.at - prev.value.at > 0.05 && cur.count >= prev.value.count
    then (cur.count - prev.value.count) as real / (cur.at - prev.value.at)
    else 0.0
  }

  function Lookup<K, S>(m: map<K, S>, key: K): Option<S> {
    if key in m then Some(m[key]) else None
  }

  function Seen<S>(f: S -> Sample, prev: Option<S>): Option<Sample> {
    match prev case Some(s) => Some(f(s)) case None => None
  }

  /** The last sample of every key, after some observations. */
  function Store<K, S>(m: map<K, S>, events: seq<(K, S)>): map<K, S>
    decreases |events|
  {
    if events == [] then m else Store(m[events[0].0 := events[0].1], events[1..])
  }

  /** What is reported for each observation, given the last sample of its key. */
  function Reports<K, S, I>(report: (Option<S>, K, S) -> I, m: map<K, S>, events: seq<(K, S)>): (infos: seq<I>)
    ensures |infos| == |events|
    decreases |events|
  {
    if events == [] then []
    else
      var (key, s) := events[0];
      [report(Lookup(m, key), key, s)] + Reports(report, m[key := s], events[1..])
  }

  lemma {:induction false} FoldConcat<K, S, I>(report: (Option<S>, K, S) -> I, m: map<K, S>,
                                               a: seq<(K, S)>, b: seq<(K, S)>)
    ensures Store(m, a + b) == Store(Store(m, a), b)
    ensures Reports(report, m, a + b) == Reports(report, m, a) + Reports(report, Store(m, a), b)
    decreases |a|
  {
    if a == [] {
      assert a + b == b;
    } else {
      assert (a + b)[0] == a[0] && (a + b)[1..] == a[1..] + b;
      FoldConcat(report, m[a[0].0 := a[0].1], a[1..], b);
    }
  }

  // ---- accounting for one key ----

  /** Reported rate times the time since the key's last sample, summed. */
  function Volume<K, S, I>(key: K, f: S -> Sample, g: I -> real, m: map<K, S>, events: seq<(K, S)>, infos: seq<I>): real
    requires |infos| == |events|
    decreases |events|
  {
    if events == [] then 0.0
    else
      var (k, s) := events[0];
      (if k == key && key in m then g(infos[0]) * (f(s).at - f(m[key]).at) else 0.0)
      + Volume(key, f, g, m[k := s], events[1..], infos[1..])
  }

  /** The growth over the intervals for which no rate is reported: the short ones and the ones over
      which the counter went back (whose growth is negative). */
  function Unreported<K, S>(key: K, f: S -> Sample, m: map<K, S>, events: seq<(K, S)>): int
    decreases |events|
  {
    if events == [] then 0
    else
      var (k, s) := events[0];
      (if k == key && key in m && (f(s).at - f(m[key]).at <= 0.05 || f(s).count < f(m[key]).count)
       then f(s).count - f(m[key]).count else 0)
      + Unreported(key, f, m[k := s], events[1..])
  }

  /** Where the accounting starts: the stored count or, without one, the first one observed. */
  function Base<K, S>(key: K, f: S -> Sample, m: map<K, S>, events: seq<(K, S)>): int
    decreases |events|
  {
    if key in m then f(m[key]).count
    else if events == [] then 0
    else Base(key, f, m[events[0].0 := events[0].1], events[1..])
  }

  function Final<K, S>(key: K, f: S -> Sample, m: map<K, S>): int {
    if key in m then f(m[key]).count else 0
  }

  lemma RateTimesElapsed(prev: Sample, cur: Sample)
    ensures Rate(Some(prev), cur) * (cur.at - prev.at)
         == if cur.at - prev.at > 0.05 && cur.count >= prev.count then (cur.count - prev.count) as real else 0.0
  {
  }

  /** The growth one observation's rate accounts for. */
  function Credited<K, S>(key: K, f: S -> Sample, m: map<K, S>, k: K, s: S): int {
    if k == key && key in m && f(s).at - f(m[key]).at > 0.05 && f(s).count >= f(m[key]).count
    then f(s).count - f(m[key]).count else 0
  }

  function Growth<K, S>(key: K, f: S -> Sample, m: map<K, S>, events: seq<(K, S)>): int {
    Final(key, f, Store(m, events)) - Base(key, f, m, events) - Unreported(key, f, m, events)
  }

  lemma GrowthStep<K, S>(key: K, f: S -> Sample, m: map<K, S>, events: seq<(K, S)>)
    requires events != []
    ensures var (k, s) := events[0];
      Growth(key, f, m, events) == Credited(key, f, m, k, s) + Growth(key, f, m[k := s], events[1..])
  {
  }

  /** Along the observations, what is reported for the key is its counter's rate. */
  predicate Honest<K, S, I>(key: K, f: S -> Sample, g: I -> real, report: (Option<S>, K, S) -> I, m: map<K, S>,
                            events: seq<(K, S)>)
    decreases |events|
  {
    events == [] ||
      (var (k, s) := events[0];
       && (k == key ==> g(report(Lookup(m, k), k, s)) == Rate(Seen(f, Lookup(m, k)), f(s)))
       && Honest(key, f, g, report, m[k := s], events[1..]))
  }

  lemma {:induction false} AlwaysHonest<K, S(!new), I>(key: K, f: S -> Sample, g: I -> real,
                                                       report: (Option<S>, K, S) -> I, m: map<K, S>,
                                                       events: seq<(K, S)>)
    requires forall prev, s :: g(report(prev, key, s)) == Rate(Seen(f, prev), f(s))
    ensures Honest(key, f, g, report, m, events)
    decreases |events|
  {
    if events != [] {
      AlwaysHonest(key, f, g, report, m[events[0].0 := events[0].1], events[1..]);
    }
  }

  lemma VolumeStep<K, S, I>(key: K, f: S -> Sample, g: I -> real, report: (Option<S>, K, S) -> I, m: map<K, S>,
                            events: seq<(K, S)>)
    requires events != [] && Honest(key, f, g, report, m, events)
    ensures var ((k, s), rest) := (events[0], events[1..]);
      Volume(key, f, g, m, events, Reports(report, m, events))
      == Credited(key, f, m, k, s) as real + Volume(key, f, g, m[k := s], rest, Reports(report, m[k := s], rest))
  {
    var (k, s) := events[0];
    assert Reports(report, m, events)[1..] == Reports(report, m[k := s], events[1..]);
    if k == key && key in m {
      RateTimesElapsed(f(m[key]), f(s));
    }
  }

  /** Reported rates times elapsed times add up to the counter's growth, less what was not reported. */
  lemma {:induction false} Telescopes<K, S, I>(key: K, f: S -> Sample, g: I -> real, report: (Option<S>, K, S) -> I,
                                               m: map<K, S>, events: seq<(K, S)>)
    requires Honest(key, f, g, report, m, events)
    ensures Volume(key, f, g, m, events, Reports(report, m, events)) == Growth(key, f, m, events) as real
    decreases |events|
  {
    if events == [] {
      assert Growth(key, f, m, events) == 0;
    } else {
      var (k, s) := events[0];
      Telescopes(key, f, g, report, m[k := s], events[1..]);
      VolumeStep(key, f, g, report, m, events);
      GrowthStep(key, f, m, events);
    }
  }

  // ---- reports that nobody saw ----

  /** What is left to see of some reports. */
  function Mask<I>(shown: seq<bool>, infos: seq<I>): (masked: seq<Option<I>>)
    requires |shown| == |infos|
    ensures |masked| == |infos|
    ensures forall i :: 0 <= i < |infos| ==> masked[i] == if shown[i] then Some(infos[i]) else None
  {
    if infos == [] then []
    else [if shown[0] then Some(infos[0]) else None] + Mask(shown[1..], infos[1..])
  }

  function IfShown<I>(g: I -> real): Option<I> -> real {
    (o: Option<I>) => match o case Some(info) => g(info) case None => 0.0
  }

  /** The growth that only reports nobody saw account for. */
  function Lost<K, S>(key: K, f: S -> Sample, m: map<K, S>, events: seq<(K, S)>, shown: seq<bool>): int
    requires |shown| == |events|
    decreases |events|
  {
    if events == [] then 0
    else
      var (k, s) := events[0];
      (if shown[0] then 0 else Credited(key, f, m, k, s)) + Lost(key, f, m[k := s], events[1..], shown[1..])
  }

  lemma {:induction false} ShownPlusLost<K, S, I>(key: K, f: S -> Sample, g: I -> real, report: (Option<S>, K, S) -> I,
                                                  m: map<K, S>, events: seq<(K, S)>, shown: seq<bool>)
    requires |shown| == |events| && Honest(key, f, g, report, m, events)
    ensures var infos := Reports(report, m, events);
      Volume(key, f, IfShown(g), m, events, Mask(shown, infos)) + Lost(key, f, m, events, shown) as real
      == Volume(key, f, g, m, events, infos)
    decreases |events|
  {
    if events != [] {
      var ((k, s), rest) := (events[0], events[1..]);
      var infos := Reports(report, m, events);
      ShownPlusLost(key, f, g, report, m[k := s], rest, shown[1..]);
      VolumeStep(key, f, g, report, m, events);
      assert infos[1..] == Reports(report, m[k := s], rest);
      assert Mask(shown, infos)[1..] == Mask(shown[1..], infos[1..]);
    }
  }

  /** If some reports are not seen, their growth is missing from the total and nothing else is. */
  lemma MaskedTelescopes<K, S, I>(key: K, f: S -> Sample, g: I -> real, report: (Option<S>, K, S) -> I,
                                  m: map<K, S>, events: seq<(K, S)>, shown: seq<bool>)
    requires |shown| == |events| && Honest(key, f, g, report, m, events)
    ensures Volume(key, f, IfShown(g), m, events, Mask(shown, Reports(report, m, events)))
         == (Growth(key, f, m, events) - Lost(key, f, m, events, shown)) as real
  {
    Telescopes(key, f, g, report, m, events);
    ShownPlusLost(key, f, g, report, m, events, shown);
  }

  /** A key's counts along the observations, none smaller than the one before. */
  predicate Growing<K, S>(key: K, f: S -> Sample, m: map<K, S>, events: seq<(K, S)>)
    decreases |events|
  {
    events == [] ||
      (var (k, s) := events[0];
       && (k == key && key in m ==> f(s).count >= f(m[key]).count)
       && Growing(key, f, m[k := s], events[1..]))
  }

  /** The growth over intervals of 50 milliseconds or less. */
  function ShortGrowth<K, S>(key: K, f: S -> Sample, m: map<K, S>, events: seq<(K, S)>): int
    decreases |events|
  {
    if events == [] then 0
    else
      var (k, s) := events[0];
      (if k == key && key in m && f(s).at - f(m[key]).at <= 0.05 then f(s).count - f(m[key]).count else 0)
      + ShortGrowth(key, f, m[k := s], events[1..])
  }

  lemma {:induction false} OnlyShortUnreported<K, S>(key: K, f: S -> Sample, m: map<K, S>, events: seq<(K, S)>)
    requires Growing(key, f, m, events)
    ensures Unreported(key, f, m, events) == ShortGrowth(key, f, m, events)
    decreases |events|
  {
    if events != [] {
      OnlyShortUnreported(key, f, m[events[0].0 := events[0].1], events[1..]);
    }
  }
}
