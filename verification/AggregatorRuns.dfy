/** The aggregator over whole runs: trades arrive, and each timer swaps out the map it flushes. */
module AggregatorRuns {
  import opened Aggregation

  datatype Event = Arrive(trade: Trade) | SwapSeconds | SwapMinutes

  datatype State = State(seconds: Buckets, minutes: Buckets, flushedSeconds: seq<Buckets>, flushedMinutes: seq<Buckets>)

  const INIT := State(map[], map[], [], [])

  function Next(s: State, e: Event): State {
    match e
    case Arrive(t) => s.(seconds := Update(s.seconds, t, SECOND), minutes := Update(s.minutes, t, MINUTE))
    case SwapSeconds => s.(seconds := map[], flushedSeconds := s.flushedSeconds + [s.seconds])
    case SwapMinutes => s.(minutes := map[], flushedMinutes := s.flushedMinutes + [s.minutes])
  }

  function Run(es: seq<Event>): State {
    if es == [] then INIT else Next(Run(es[..|es| - 1]), es[|es| - 1])
  }

  /** All trades consumed. */
  function Trades(es: seq<Event>): seq<Trade> {
    if es == [] then []
    else if es[|es| - 1].Arrive? then Trades(es[..|es| - 1]) + [es[|es| - 1].trade]
    else Trades(es[..|es| - 1])
  }

  /** The trades between consecutive swaps of one timer. */
  function Generations(es: seq<Event>, swap: Event): (r: seq<seq<Trade>>)
    ensures |r| > 0
  {
    if es == [] then [[]]
    else
      var g, e := Generations(es[..|es| - 1], swap), es[|es| - 1];
      if e == swap then g + [[]]
      else if e.Arrive? then g[..|g| - 1] + [g[|g| - 1] + [e.trade]]
      else g
  }

  function Flatten(g: seq<seq<Trade>>): seq<Trade> {
    if g == [] then [] else Flatten(g[..|g| - 1]) + g[|g| - 1]
  }

  /** Every consumed trade belongs to exactly one generation, in order. */
  lemma {:induction false} GenerationsPartition(es: seq<Event>, swap: Event)
    requires !swap.Arrive?
    ensures Flatten(Generations(es, swap)) == Trades(es)
  {
    if es == [] {
      var g := Generations(es, swap);
      assert g[..0] == [];
    } else {
      var g, e := Generations(es[..|es| - 1], swap), es[|es| - 1];
      GenerationsPartition(es[..|es| - 1], swap);
      if e == swap {
        assert (g + [[]])[..|g|] == g;
      } else if e.Arrive? {
        var g' := g[..|g| - 1] + [g[|g| - 1] + [e.trade]];
        assert g'[..|g'| - 1] == g[..|g| - 1];
      }
    }
  }

  /** The maps `maps` are those built from the generations `g`, one each. */
  predicate BuiltFrom(maps: seq<Buckets>, g: seq<seq<Trade>>, d: int)
    requires d > 0
  {
    |maps| == |g| && forall i | 0 <= i < |g| :: maps[i] == Build(g[i], d)
  }

  /** In any interleaving, what each timer swaps out, and what is left, is built from that timer's generations. */
  lemma {:induction false} FlushedGenerations(es: seq<Event>)
    ensures var s := Run(es);
      && BuiltFrom(s.flushedSeconds + [s.seconds], Generations(es, SwapSeconds), SECOND)
      && BuiltFrom(s.flushedMinutes + [s.minutes], Generations(es, SwapMinutes), MINUTE)
  {
    if es != [] {
      FlushedGenerations(es[..|es| - 1]);
      var s, e := Run(es[..|es| - 1]), es[|es| - 1];
      var arrived := if e.Arrive? then [e.trade] else [];
      GenerationStep(s.flushedSeconds, s.seconds, Generations(es[..|es| - 1], SwapSeconds), SECOND, arrived);
      GenerationStep(s.flushedMinutes, s.minutes, Generations(es[..|es| - 1], SwapMinutes), MINUTE, arrived);
    }
  }

  lemma GenerationStep(flushed: seq<Buckets>, now: Buckets, g: seq<seq<Trade>>, d: int, arrived: seq<Trade>)
    requires d > 0 && BuiltFrom(flushed + [now], g, d) && |arrived| <= 1
    ensures BuiltFrom(flushed + [now] + [map[]], g + [[]], d)
    ensures arrived != [] ==>
      BuiltFrom(flushed + [Update(now, arrived[0], d)], g[..|g| - 1] + [g[|g| - 1] + arrived], d)
  {
    var n := |g| - 1;
    assert (flushed + [now])[n] == now == Build(g[n], d);
    forall i | 0 <= i < n ensures flushed[i] == Build(g[i], d) { assert (flushed + [now])[i] == flushed[i]; }
    if arrived != [] { assert (g[n] + arrived)[..|g[n]|] == g[n]; }
  }

  // ---- What is flushed ----

  lemma {:induction false} FlattenHas(g: seq<seq<Trade>>, i: nat, t: Trade)
    requires i < |g| && t in g[i]
    ensures t in Flatten(g)
  {
    if i < |g| - 1 { FlattenHas(g[..|g| - 1], i, t); }
  }

  /**
   In any interleaving, for nonnegative sizes: every one-second row swapped out is an ordered candle, and carries an
   average inside it, exactly if it has volume or zero lies inside as well.
   */
  lemma FlushedAverages(es: seq<Event>, i: nat, key: string)
    requires forall t | t in Trades(es) :: t.size >= 0.0
    requires i < |Run(es).flushedSeconds| && key in Run(es).flushedSeconds[i]
    ensures var b := Run(es).flushedSeconds[i][key];
      && b.low <= b.open <= b.high && b.low <= b.close <= b.high
      && (b.low <= Average(b) <= b.high <==> b.volume > 0.0 || b.low <= 0.0 <= b.high)
  {
    FlushedGenerations(es);
    GenerationsPartition(es, SwapSeconds);
    var g := Generations(es, SwapSeconds);
    var maps := Run(es).flushedSeconds + [Run(es).seconds];
    assert maps[i] == Run(es).flushedSeconds[i] == Build(g[i], SECOND);
    forall t: Trade | t in g[i] ensures t.size >= 0.0 { FlattenHas(g, i, t); }
    CandleAverage(g[i], key);
  }

  lemma CandleAverage(ts: seq<Trade>, key: string)
    requires key in Build(ts, SECOND) && forall t | t in ts :: t.size >= 0.0
    ensures var b := Build(ts, SECOND)[key];
      && b.low <= b.open <= b.high && b.low <= b.close <= b.high
      && (b.low <= Average(b) <= b.high <==> b.volume > 0.0 || b.low <= 0.0 <= b.high)
  {
    var t := TradeOfKey(ts, SECOND, key);
    KeyOfTrade(ts, t, SECOND);
    var lo := Truncate(t.time, SECOND);
    OneCandleAverage(ts, Build(ts, SECOND)[key], t.market, lo, lo + SECOND);
  }

  lemma OneCandleAverage(ts: seq<Trade>, b: Bucket, market: string, lo: int, hi: int)
    requires Candle(b, In(ts, market, lo, hi)) && forall t | t in ts :: t.size >= 0.0
    ensures b.low <= b.open <= b.high && b.low <= b.close <= b.high
    ensures b.low <= Average(b) <= b.high <==> b.volume > 0.0 || b.low <= 0.0 <= b.high
  {
    var trades := In(ts, market, lo, hi);
    forall u | u in trades ensures u.size >= 0.0 { InIff(ts, market, lo, hi, u); }
    PositiveVolume(trades);
    AverageInsideCandle(b, trades);
  }

  // ---- Sums over maps ----

  ghost function Total(m: Buckets): Tally {
    if m == map[] then ZERO
    else
      var key :| key in m;
      Plus(Total(m - {key}), Sums(m[key]))
  }

  /** The total does not depend on the order in which keys are taken. */
  lemma {:induction false} TotalWithout(m: Buckets, key: string)
    requires key in m
    ensures Total(m) == Plus(Total(m - {key}), Sums(m[key]))
    decreases |m|
  {
    var k :| k in m && Total(m) == Plus(Total(m - {k}), Sums(m[k]));
    if k != key {
      var a, b := m[key], m[k];
      TotalWithout(m - {k}, key);
      TotalWithout(m - {key}, k);
      var rest := m - {k} - {key};
      assert rest == m - {key} - {k};
      assert Total(m - {k}) == Plus(Total(rest), Sums(a));
      assert Total(m - {key}) == Plus(Total(rest), Sums(b));
      PlusSwaps(Total(rest), Sums(a), Sums(b));
    }
  }

  lemma PlusSwaps(x: Tally, a: Tally, b: Tally)
    ensures Plus(Plus(x, a), b) == Plus(Plus(x, b), a)
  {}

  lemma TotalUpdate(m: Buckets, t: Trade, d: int)
    requires d > 0
    ensures Agrees(Total(Update(m, t, d)), Plus(Total(m), One(t)))
  {
    var window := Truncate(t.time, d);
    var key := Key(t.market, window);
    var before := if key in m then m[key] else NewBucket(t, window);
    TotalReplace(m, key, Add(before, t));
    WrappedStep(Total(m - {key}).count, before.count);
  }

  lemma TotalReplace(m: Buckets, key: string, b: Bucket)
    ensures Total(m[key := b]) == Plus(Total(m - {key}), Sums(b))
    ensures Total(m) == if key in m then Plus(Total(m - {key}), Sums(m[key])) else Total(m - {key})
  {
    TotalWithout(m[key := b], key);
    assert m[key := b] - {key} == m - {key};
    if key in m { TotalWithout(m, key); } else { assert m - {key} == m; }
  }

  lemma WrappedStep(rest: int, count: int)
    ensures (rest + (count + 1) % COUNT_WRAP) % COUNT_WRAP == (rest + count + 1) % COUNT_WRAP
  {}

  lemma {:induction false} TotalBuild(ts: seq<Trade>, d: int)
    requires d > 0
    ensures Agrees(Total(Build(ts, d)), TallyOf(ts))
  {
    if ts != [] {
      TotalBuild(ts[..|ts| - 1], d);
      TotalUpdate(Build(ts[..|ts| - 1], d), ts[|ts| - 1], d);
      AgreesPlus(Total(Build(ts[..|ts| - 1], d)), TallyOf(ts[..|ts| - 1]), One(ts[|ts| - 1]), One(ts[|ts| - 1]));
    }
  }

  lemma AgreesPlus(a: Tally, b: Tally, c: Tally, d: Tally)
    requires Agrees(a, b) && Agrees(c, d)
    ensures Agrees(Plus(a, c), Plus(b, d))
  {
    WrappedSum(a.count, b.count, c.count, d.count);
  }

  ghost function GrandTotal(maps: seq<Buckets>): Tally {
    if maps == [] then ZERO else Plus(GrandTotal(maps[..|maps| - 1]), Total(maps[|maps| - 1]))
  }

  lemma {:induction false} GrandTotalOfGenerations(maps: seq<Buckets>, g: seq<seq<Trade>>, d: int)
    requires d > 0 && BuiltFrom(maps, g, d)
    ensures Agrees(GrandTotal(maps), TallyOf(Flatten(g)))
  {
    if maps != [] {
      var n := |maps| - 1;
      GrandTotalOfGenerations(maps[..n], g[..n], d);
      TotalBuild(g[n], d);
      AgreesPlus(GrandTotal(maps[..n]), TallyOf(Flatten(g[..n])), Total(maps[n]), TallyOf(g[n]));
      TallyOfConcat(Flatten(g[..n]), g[n]);
    }
  }

  /**
   Conservation: in any interleaving of trades and swaps, counts (up to the counter's width), volumes and
   weighted sums over everything swapped out plus what is left are those of all consumed trades, separately for
   each granularity.
   */
  lemma NothingLostOrCountedTwice(es: seq<Event>)
    ensures var s, all := Run(es), TallyOf(Trades(es));
      && Agrees(GrandTotal(s.flushedSeconds + [s.seconds]), all)
      && Agrees(GrandTotal(s.flushedMinutes + [s.minutes]), all)
  {
    var s := Run(es);
    FlushedGenerations(es);
    GenerationsPartition(es, SwapSeconds);
    GenerationsPartition(es, SwapMinutes);
    GrandTotalOfGenerations(s.flushedSeconds + [s.seconds], Generations(es, SwapSeconds), SECOND);
    GrandTotalOfGenerations(s.flushedMinutes + [s.minutes], Generations(es, SwapMinutes), MINUTE);
  }

  // ---- The aggregator's maps of mutable buckets ----

  class MetricBucket {
    const market: string
    const window: int
    var count: nat
    var volume: real
    var priceSumWt: real
    var open: real
    var high: real
    var low: real
    var close: real

    constructor (market: string, window: int, price: real)
      ensures this.market == market && this.window == window && count == 0 && volume == 0.0 && priceSumWt == 0.0
      ensures open == price && high == price && low == price && close == 0.0
    {
      this.market, this.window, count, volume, priceSumWt := market, window, 0, 0.0, 0.0;
      open, high, low, close := price, price, price, 0.0;
    }

    ghost function View(): Bucket
      reads this
    {
      Bucket(market, window, count, volume, priceSumWt, open, high, low, close)
    }

    method Record(trade: Trade)
      modifies this
      ensures View() == Add(old(View()), trade)
    {
      count := (count + 1) % COUNT_WRAP;
      volume := volume + trade.size;
      priceSumWt := priceSumWt + Weight(trade);
      if trade.price > high { high := trade.price; }
      if trade.price < low { low := trade.price; }
      close := trade.price;
    }
  }

  type BucketMap = map<string, MetricBucket>

  ghost function Snapshot(m: BucketMap): Buckets
    reads m.Values
  {
    map key | key in m :: m[key].View()
  }

  ghost function BucketsOf(flushed: seq<BucketMap>): set<MetricBucket> {
    set i, b | 0 <= i < |flushed| && b in flushed[i].Values :: b
  }

  /** The maps hold, now, what the values say. */
  ghost predicate Show(flushed: seq<BucketMap>, maps: seq<Buckets>)
    reads BucketsOf(flushed)
  {
    |flushed| == |maps| && forall i | 0 <= i < |flushed| :: Snapshot(flushed[i]) == maps[i]
  }

  ghost predicate Separate(m: BucketMap) {
    forall k1, k2 | k1 in m && k2 in m && k1 != k2 :: m[k1] != m[k2]
  }

  method UpdateBucket(m: BucketMap, trade: Trade, d: int) returns (r: BucketMap)
    requires d > 0 && Separate(m)
    modifies m.Values
    ensures Separate(r) && fresh(r.Values - m.Values)
    ensures Snapshot(r) == Update(old(Snapshot(m)), trade, d)
  {
    var window := Truncate(trade.time, d);
    var key := Key(trade.market, window);
    r := m;
    if key !in m {
      var n := new MetricBucket(trade.market, window, trade.price);
      r := m[key := n];
    }
    r[key].Record(trade);
  }

  /** Both granularities, whose maps share no bucket. */
  method UpdateBoth(m1: BucketMap, m60: BucketMap, trade: Trade) returns (r1: BucketMap, r60: BucketMap)
    requires Separate(m1) && Separate(m60) && m1.Values !! m60.Values
    modifies m1.Values, m60.Values
    ensures Separate(r1) && Separate(r60) && r1.Values !! r60.Values
    ensures fresh(r1.Values - m1.Values) && fresh(r60.Values - m60.Values)
    ensures Snapshot(r1) == Update(old(Snapshot(m1)), trade, SECOND)
    ensures Snapshot(r60) == Update(old(Snapshot(m60)), trade, MINUTE)
  {
    r1 := UpdateBucket(m1, trade, SECOND);
    assert Snapshot(m60) == old(Snapshot(m60));
    r60 := UpdateBucket(m60, trade, MINUTE);
  }

  class Aggregator {
    var buckets: BucketMap
    var agg1m: BucketMap

    ghost predicate Valid()
      reads this
    {
      Separate(buckets) && Separate(agg1m) && buckets.Values !! agg1m.Values
    }

    constructor ()
      ensures Valid() && buckets == map[] && agg1m == map[]
    {
      buckets, agg1m := map[], map[];
    }

    method Consume(trade: Trade)
      requires Valid()
      modifies this, buckets.Values, agg1m.Values
      ensures Valid() && fresh(buckets.Values - old(buckets.Values)) && fresh(agg1m.Values - old(agg1m.Values))
      ensures Snapshot(buckets) == Update(old(Snapshot(buckets)), trade, SECOND)
      ensures Snapshot(agg1m) == Update(old(Snapshot(agg1m)), trade, MINUTE)
    {
      var newBuckets, newAgg := UpdateBoth(buckets, agg1m, trade);
      ghost var seconds, minutes := Snapshot(newBuckets), Snapshot(newAgg);
      buckets, agg1m := newBuckets, newAgg;
      assert Snapshot(buckets) == seconds && Snapshot(agg1m) == minutes;
    }

    /** The one-second timer takes the map, leaves an empty one, and shares no bucket with what is still updated. */
    method SwapSeconds() returns (current: BucketMap)
      requires Valid()
      modifies this`buckets
      ensures Valid() && current == old(buckets) && buckets == map[] && Snapshot(buckets) == map[]
      ensures current.Values !! buckets.Values && current.Values !! agg1m.Values
    {
      current := buckets;
      buckets := map[];
    }

    method SwapMinutes() returns (current: BucketMap)
      requires Valid()
      modifies this`agg1m
      ensures Valid() && current == old(agg1m) && agg1m == map[] && Snapshot(agg1m) == map[]
      ensures current.Values !! buckets.Values && current.Values !! agg1m.Values
    {
      current := agg1m;
      agg1m := map[];
    }

    /** The state of the model: what is being filled, and what was swapped out. */
    ghost predicate Shows(s: State, flushed1: seq<BucketMap>, flushed60: seq<BucketMap>)
      reads this, buckets.Values, agg1m.Values, BucketsOf(flushed1), BucketsOf(flushed60)
    {
      && Snapshot(buckets) == s.seconds && Snapshot(agg1m) == s.minutes
      && Show(flushed1, s.flushedSeconds) && Show(flushed60, s.flushedMinutes)
    }

    /** Nothing swapped out shares a bucket with what is still updated. */
    ghost predicate Apart(flushed: seq<BucketMap>)
      reads this
    {
      BucketsOf(flushed) !! buckets.Values && BucketsOf(flushed) !! agg1m.Values
    }

    /** A trade leaves what was swapped out as it is. */
    method ConsumeApart(trade: Trade, ghost flushed1: seq<BucketMap>, ghost flushed60: seq<BucketMap>, ghost s: State)
      requires Valid() && Apart(flushed1) && Apart(flushed60) && Shows(s, flushed1, flushed60)
      modifies this, buckets.Values, agg1m.Values
      ensures Valid() && Apart(flushed1) && Apart(flushed60) && Shows(Next(s, Arrive(trade)), flushed1, flushed60)
      ensures fresh(buckets.Values - old(buckets.Values)) && fresh(agg1m.Values - old(agg1m.Values))
    {
      assert forall b | b in BucketsOf(flushed1) + BucketsOf(flushed60) :: allocated(b);
      Consume(trade);
    }

    method Perform(e: Event, flushed1: seq<BucketMap>, flushed60: seq<BucketMap>, ghost s: State)
      returns (r1: seq<BucketMap>, r60: seq<BucketMap>)
      requires Valid() && Apart(flushed1) && Apart(flushed60) && Shows(s, flushed1, flushed60)
      modifies this, buckets.Values, agg1m.Values
      ensures Valid() && Apart(r1) && Apart(r60) && Shows(Next(s, e), r1, r60)
      ensures fresh(buckets.Values - old(buckets.Values)) && fresh(agg1m.Values - old(agg1m.Values))
    {
      r1, r60 := flushed1, flushed60;
      match e {
        case Arrive(trade) =>
          ConsumeApart(trade, flushed1, flushed60, s);
        case SwapSeconds =>
          var current := SwapSeconds();
          r1 := flushed1 + [current];
        case SwapMinutes =>
          var current := SwapMinutes();
          r60 := flushed60 + [current];
      }
    }

    /**
     A run of the aggregator from its start.  What was swapped out is looked at only at the end, and still is what
     it was when it was swapped out: the flusher, which reads it without the lock, sees it change no more.
     */
    method RunAll(es: seq<Event>) returns (flushed1: seq<BucketMap>, flushed60: seq<BucketMap>)
      requires buckets == map[] && agg1m == map[]
      modifies this
      ensures Valid() && Shows(Run(es), flushed1, flushed60)
    {
      flushed1, flushed60 := [], [];
      for i := 0 to |es|
        invariant Valid() && Apart(flushed1) && Apart(flushed60) && Shows(Run(es[..i]), flushed1, flushed60)
        invariant fresh(buckets.Values) && fresh(agg1m.Values)
      {
        ghost var s := Run(es[..i]);
        assert Run(es[..i + 1]) == Next(s, es[i]) by { assert es[..i + 1][..i] == es[..i]; }
        flushed1, flushed60 := Perform(es[i], flushed1, flushed60, s);
      }
      assert es[..|es|] == es;
    }
  }
}
