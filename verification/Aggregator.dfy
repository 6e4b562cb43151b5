/**
 The trade aggregator: one-second and one-minute buckets per market, filled from the same trades and swapped
 out by two independent timers.  Times are nanoseconds since the zero time of Go's `time` package.
 */
module Aggregation {
  import opened Decimal
  import opened Options
  import opened RealArithmetic

  const SECOND := 1_000_000_000
  const MINUTE := 60 * SECOND
  const UNIX_EPOCH := 62_135_596_800   // seconds from the zero time to 1970
  const COUNT_WRAP := 0x1_0000_0000    // TradeCount is a uint32

  datatype Trade = Trade(market: string, price: real, size: real, time: int)

  datatype Bucket = Bucket(market: string, window: int, count: nat, volume: real, priceSumWt: real,
                           open: real, high: real, low: real, close: real)

  type Buckets = map<string, Bucket>

  function Truncate(time: int, d: int): int
    requires d > 0
  {
    time / d * d
  }

  function Unix(window: int): int { window / SECOND - UNIX_EPOCH }

  function Key(market: string, window: int): string { market + ":" + Itoa(Unix(window)) }

  function Max(a: real, b: real): real { if b > a then b else a }
  function Min(a: real, b: real): real { if b < a then b else a }

  function NewBucket(t: Trade, window: int): Bucket {
    Bucket(t.market, window, 0, 0.0, 0.0, t.price, t.price, t.price, 0.0)
  }

  function Add(b: Bucket, t: Trade): Bucket {
    b.(count := (b.count + 1) % COUNT_WRAP, volume := b.volume + t.size, priceSumWt := b.priceSumWt + Weight(t),
       high := Max(b.high, t.price), low := Min(b.low, t.price), close := t.price)
  }

  function Update(m: Buckets, t: Trade, d: int): Buckets
    requires d > 0
  {
    var window := Truncate(t.time, d);
    var key := Key(t.market, window);
    m[key := Add(if key in m then m[key] else NewBucket(t, window), t)]
  }

  function Build(ts: seq<Trade>, d: int): Buckets
    requires d > 0
  {
    if ts == [] then map[] else Update(Build(ts[..|ts| - 1], d), ts[|ts| - 1], d)
  }

  // ---- Windows and keys ----

  predicate IsWindow(w: int, d: int)
    requires d > 0
  {
    w % d == 0
  }

  lemma TruncateFloors(time: int, w: int, d: int)
    requires d == SECOND || d == MINUTE
    ensures IsWindow(Truncate(time, d), d)
    ensures Truncate(time, d) <= time < Truncate(time, d) + d
    ensures IsWindow(w, d) && w <= time < w + d ==> Truncate(time, d) == w
  {
    if d == SECOND {} else {}
  }

  /** Truncating to the second first makes no difference to the minute. */
  lemma MinuteOfSecond(time: int)
    ensures Truncate(Truncate(time, SECOND), MINUTE) == Truncate(time, MINUTE)
  {
    var minute, second := time / MINUTE, time / SECOND;
    assert minute * 60 <= second < minute * 60 + 60;
    assert minute * MINUTE <= second * SECOND < minute * MINUTE + MINUTE;
  }

  lemma ColonSplits(a: string, b: string, x: string, y: string)
    requires a + ":" + x == b + ":" + y && ':' !in x && ':' !in y
    ensures a == b && x == y
  {
    var s := a + ":" + x;
    forall i | |a| < i < |s| ensures s[i] != ':' { assert s[i] == x[i - |a| - 1]; }
    forall i | |b| < i < |s| ensures s[i] != ':' { assert s[i] == y[i - |b| - 1]; }
    assert s[|a|] == ':' && s[|b|] == ':';
    assert s[..|a|] == a && s[..|b|] == b && s[|a| + 1..] == x && s[|b| + 1..] == y;
  }

  /** The text key never merges two markets or two windows. */
  lemma KeyInjective(m1: string, w1: int, m2: string, w2: int)
    requires IsWindow(w1, SECOND) && IsWindow(w2, SECOND) && Key(m1, w1) == Key(m2, w2)
    ensures m1 == m2 && w1 == w2
  {
    ItoaHasNoColon(Unix(w1));
    ItoaHasNoColon(Unix(w2));
    ColonSplits(m1, m2, Itoa(Unix(w1)), Itoa(Unix(w2)));
    ItoaInjective(Unix(w1), Unix(w2));
  }

  // ---- What a bucket says about its trades ----

  /** The trades of one market with times in [lo, hi), in order of arrival. */
  function In(ts: seq<Trade>, market: string, lo: int, hi: int): seq<Trade> {
    if ts == [] then []
    else
      var t, rest := ts[|ts| - 1], In(ts[..|ts| - 1], market, lo, hi);
      if t.market == market && lo <= t.time < hi then rest + [t] else rest
  }

  datatype Tally = Tally(count: int, volume: real, weight: real)

  function Plus(a: Tally, b: Tally): Tally { Tally(a.count + b.count, a.volume + b.volume, a.weight + b.weight) }

  const ZERO := Tally(0, 0.0, 0.0)

  function Weight(t: Trade): real { t.price * t.size }

  function One(t: Trade): Tally { Tally(1, t.size, Weight(t)) }

  function TallyOf(ts: seq<Trade>): Tally {
    if ts == [] then ZERO
    else Plus(TallyOf(ts[..|ts| - 1]), One(ts[|ts| - 1]))
  }

  /** Equal sums, with the count up to the width of the counter. */
  predicate Agrees(a: Tally, b: Tally) {
    a.count % COUNT_WRAP == b.count % COUNT_WRAP && a.volume == b.volume && a.weight == b.weight
  }

  function Sums(b: Bucket): Tally { Tally(b.count, b.volume, b.priceSumWt) }

  predicate Priced(ts: seq<Trade>, p: real) { exists t | t in ts :: t.price == p }

  /** Low and high bound the prices of the trades and are among them. */
  predicate InRange(b: Bucket, ts: seq<Trade>) {
    && (forall t | t in ts :: b.low <= t.price <= b.high)
    && Priced(ts, b.low) && Priced(ts, b.high)
  }

  /** The parts of a bucket that do not depend on the order of its trades. */
  predicate Totals(b: Bucket, ts: seq<Trade>) {
    Agrees(Sums(b), TallyOf(ts)) && b.count < COUNT_WRAP && InRange(b, ts)
  }

  /** The candle of a nonempty sequence of trades. */
  predicate Candle(b: Bucket, ts: seq<Trade>) {
    ts != [] && Totals(b, ts) && b.open == ts[0].price && b.close == ts[|ts| - 1].price
  }

  lemma WrappedSum(a: int, b: int, c: int, d: int)
    requires a % COUNT_WRAP == b % COUNT_WRAP && c % COUNT_WRAP == d % COUNT_WRAP
    ensures (a + c) % COUNT_WRAP % COUNT_WRAP == (b + d) % COUNT_WRAP
    ensures 0 <= (a + c) % COUNT_WRAP < COUNT_WRAP
  {}

  lemma AddToSums(b: Bucket, ts: seq<Trade>, t: Trade)
    requires Agrees(Sums(b), TallyOf(ts))
    ensures Agrees(Sums(Add(b, t)), Plus(TallyOf(ts), One(t)))
    ensures Add(b, t).count < COUNT_WRAP
  {
    WrappedSum(b.count, TallyOf(ts).count, 1, 1);
  }

  lemma AddToCandle(b: Bucket, ts: seq<Trade>, t: Trade)
    requires Candle(b, ts)
    ensures Candle(Add(b, t), ts + [t])
  {
    AppendTally(ts, t);
    AddToSums(b, ts, t);
    AddToRange(b, ts, t);
  }

  lemma AppendTally(ts: seq<Trade>, t: Trade)
    ensures TallyOf(ts + [t]) == Plus(TallyOf(ts), One(t))
  {
    assert (ts + [t])[..|ts|] == ts;
  }

  lemma AddToRange(b: Bucket, ts: seq<Trade>, t: Trade)
    requires InRange(b, ts)
    ensures InRange(Add(b, t), ts + [t])
  {
    var l :| l in ts && l.price == b.low;
    var h :| h in ts && h.price == b.high;
    assert l in ts + [t] && h in ts + [t] && t in ts + [t];
  }

  lemma FirstCandle(t: Trade, window: int)
    ensures Candle(Add(NewBucket(t, window), t), [t])
  {
    assert [t][..0] == [];
    assert t in [t];
  }

  /** A bucket exists for a window exactly when the market traded in it, and is the candle of those trades. */
  predicate BucketFor(m: Buckets, ts: seq<Trade>, market: string, w: int, d: int) {
    var key, trades := Key(market, w), In(ts, market, w, w + d);
    && (key in m <==> trades != [])
    && (key in m ==> Candle(m[key], trades) && m[key].market == market && m[key].window == w)
  }

  lemma {:induction false} BucketsAreCandles(ts: seq<Trade>, market: string, w: int, d: int)
    requires (d == SECOND || d == MINUTE) && IsWindow(w, d)
    ensures BucketFor(Build(ts, d), ts, market, w, d)
  {
    if ts != [] {
      BucketsAreCandles(ts[..|ts| - 1], market, w, d);
      UpdateKeepsCandle(Build(ts[..|ts| - 1], d), ts, market, w, d);
    }
  }

  lemma WholeSeconds(w: int, d: int)
    requires (d == SECOND || d == MINUTE) && IsWindow(w, d)
    ensures IsWindow(w, SECOND)
  {}

  lemma UpdateKeepsCandle(m: Buckets, ts: seq<Trade>, market: string, w: int, d: int)
    requires (d == SECOND || d == MINUTE) && IsWindow(w, d) && ts != []
    requires BucketFor(m, ts[..|ts| - 1], market, w, d)
    ensures BucketFor(Update(m, ts[|ts| - 1], d), ts, market, w, d)
  {
    var t := ts[|ts| - 1];
    var window := Truncate(t.time, d);
    TruncateFloors(t.time, w, d);
    if market == t.market && w == window {
      UpdateThisWindow(m, ts, w, d);
    } else {
      WholeSeconds(w, d);
      WholeSeconds(window, d);
      if Key(market, w) == Key(t.market, window) { KeyInjective(market, w, t.market, window); }
      assert In(ts, market, w, w + d) == In(ts[..|ts| - 1], market, w, w + d);
    }
  }

  lemma UpdateThisWindow(m: Buckets, ts: seq<Trade>, w: int, d: int)
    requires ts != [] && d > 0
    requires var t := ts[|ts| - 1]; w == Truncate(t.time, d) && w <= t.time < w + d
    requires BucketFor(m, ts[..|ts| - 1], ts[|ts| - 1].market, w, d)
    ensures BucketFor(Update(m, ts[|ts| - 1], d), ts, ts[|ts| - 1].market, w, d)
  {
    var t := ts[|ts| - 1];
    var key, trades := Key(t.market, w), In(ts[..|ts| - 1], t.market, w, w + d);
    assert In(ts, t.market, w, w + d) == trades + [t];
    FirstCandle(t, w);
    if key in m { AddToCandle(m[key], trades, t); } else { assert trades + [t] == [t]; }
  }

  // ---- Merging seconds into a minute ----

  /** Two buckets of consecutive stretches of time, in time order. */
  function Merge(a: Bucket, b: Bucket): Bucket {
    Bucket(a.market, a.window, (a.count + b.count) % COUNT_WRAP, a.volume + b.volume, a.priceSumWt + b.priceSumWt,
           a.open, Max(a.high, b.high), Min(a.low, b.low), b.close)
  }

  function Lookup(m: Buckets, key: string): Option<Bucket> { if key in m then Some(m[key]) else None }

  function Combine(before: Option<Bucket>, next: Option<Bucket>, window: int): Option<Bucket> {
    match (before, next)
    case (_, None) => before
    case (None, Some(b)) => Some(b.(window := window))
    case (Some(a), Some(b)) => Some(Merge(a, b))
  }

  /** The one-second buckets of the `k` seconds from `lo` on, merged in time order. */
  function MergeSeconds(m: Buckets, market: string, lo: int, k: nat): Option<Bucket> {
    if k == 0 then None
    else Combine(MergeSeconds(m, market, lo, k - 1), Lookup(m, Key(market, lo + (k - 1) * SECOND)), lo)
  }

  /** Trades arrive in nondecreasing order of their seconds. */
  predicate InSecondOrder(ts: seq<Trade>) {
    forall i, j | 0 <= i < j < |ts| :: Truncate(ts[i].time, SECOND) <= Truncate(ts[j].time, SECOND)
  }

  lemma {:induction false} TallyOfConcat(ts: seq<Trade>, us: seq<Trade>)
    ensures TallyOf(ts + us) == Plus(TallyOf(ts), TallyOf(us))
  {
    if us == [] {
      assert ts + us == ts;
    } else {
      var us', u := us[..|us| - 1], us[|us| - 1];
      assert ts + us == (ts + us') + [u] && us == us' + [u];
      TallyOfConcat(ts, us');
      AppendTally(ts + us', u);
      AppendTally(us', u);
    }
  }

  /** The sums over one market and stretch of time, taken directly from all trades. */
  function TallyIn(ts: seq<Trade>, market: string, lo: int, hi: int): Tally {
    if ts == [] then ZERO
    else
      var t, before := ts[|ts| - 1], TallyIn(ts[..|ts| - 1], market, lo, hi);
      if t.market == market && lo <= t.time < hi then Plus(before, One(t)) else before
  }

  lemma {:induction false} TallyInIsTallyOf(ts: seq<Trade>, market: string, lo: int, hi: int)
    ensures TallyIn(ts, market, lo, hi) == TallyOf(In(ts, market, lo, hi))
  {
    if ts != [] {
      TallyInIsTallyOf(ts[..|ts| - 1], market, lo, hi);
      AppendTally(In(ts[..|ts| - 1], market, lo, hi), ts[|ts| - 1]);
    }
  }

  /** Splitting a stretch of time splits the sums of its trades. */
  lemma {:induction false} SplitStretch(ts: seq<Trade>, market: string, lo: int, mid: int, hi: int)
    requires lo <= mid <= hi
    ensures TallyIn(ts, market, lo, hi) == Plus(TallyIn(ts, market, lo, mid), TallyIn(ts, market, mid, hi))
  {
    if ts != [] { SplitStretch(ts[..|ts| - 1], market, lo, mid, hi); }
  }

  lemma {:induction false} InIff(ts: seq<Trade>, market: string, lo: int, hi: int, t: Trade)
    ensures t in In(ts, market, lo, hi) <==> t in ts && t.market == market && lo <= t.time < hi
  {
    if ts != [] {
      InIff(ts[..|ts| - 1], market, lo, hi, t);
      assert ts == ts[..|ts| - 1] + [ts[|ts| - 1]];
    }
  }

  lemma {:induction false} SplitInOrder(ts: seq<Trade>, market: string, lo: int, mid: int, hi: int)
    requires lo <= mid <= hi && IsWindow(mid, SECOND) && InSecondOrder(ts)
    ensures In(ts, market, lo, hi) == In(ts, market, lo, mid) + In(ts, market, mid, hi)
  {
    if ts != [] {
      var ts', t := ts[..|ts| - 1], ts[|ts| - 1];
      SplitInOrder(ts', market, lo, mid, hi);
      if t.time < mid {
        if In(ts', market, mid, hi) != [] {
          var u := In(ts', market, mid, hi)[0];
          InIff(ts', market, mid, hi, u);
          var i :| 0 <= i < |ts'| && ts'[i] == u;
          assert ts[i] == u;
          TruncateFloors(u.time, mid, SECOND);
          TruncateFloors(t.time, mid, SECOND);
          assert false;
        }
      }
    }
  }

  /** `f` is `g` and `h` together: same sums, same trades, and one after the other if `inOrder`. */
  ghost predicate Together(f: seq<Trade>, g: seq<Trade>, h: seq<Trade>, inOrder: bool) {
    && TallyOf(f) == Plus(TallyOf(g), TallyOf(h)) && |f| == |g| + |h|
    && Members(f) == Members(g) + Members(h)
    && (inOrder ==> f == g + h)
  }

  function Members(ts: seq<Trade>): set<Trade> { set t | t in ts }

  lemma {:induction false} TallyCounts(ts: seq<Trade>)
    ensures TallyOf(ts).count == |ts|
  {
    if ts != [] { TallyCounts(ts[..|ts| - 1]); }
  }

  lemma JoinStretches(ts: seq<Trade>, market: string, lo: int, mid: int, hi: int)
    requires lo <= mid <= hi && IsWindow(mid, SECOND)
    ensures Together(In(ts, market, lo, hi), In(ts, market, lo, mid), In(ts, market, mid, hi), InSecondOrder(ts))
  {
    JoinTallies(ts, market, lo, mid, hi);
    JoinMembers(ts, market, lo, mid, hi);
    if InSecondOrder(ts) { SplitInOrder(ts, market, lo, mid, hi); }
  }

  lemma JoinTallies(ts: seq<Trade>, market: string, lo: int, mid: int, hi: int)
    requires lo <= mid <= hi
    ensures var f, g, h := In(ts, market, lo, hi), In(ts, market, lo, mid), In(ts, market, mid, hi);
      TallyOf(f) == Plus(TallyOf(g), TallyOf(h)) && |f| == |g| + |h|
  {
    var f, g, h := In(ts, market, lo, hi), In(ts, market, lo, mid), In(ts, market, mid, hi);
    TallyInIsTallyOf(ts, market, lo, hi);
    TallyInIsTallyOf(ts, market, lo, mid);
    TallyInIsTallyOf(ts, market, mid, hi);
    SplitStretch(ts, market, lo, mid, hi);
    TallyCounts(f); TallyCounts(g); TallyCounts(h);
  }

  lemma JoinMembers(ts: seq<Trade>, market: string, lo: int, mid: int, hi: int)
    requires lo <= mid <= hi
    ensures Members(In(ts, market, lo, hi)) == Members(In(ts, market, lo, mid)) + Members(In(ts, market, mid, hi))
  {
    forall t
      ensures t in Members(In(ts, market, lo, hi))
         <==> t in Members(In(ts, market, lo, mid)) + Members(In(ts, market, mid, hi))
    {
      InIff(ts, market, lo, hi, t);
      InIff(ts, market, lo, mid, t);
      InIff(ts, market, mid, hi, t);
    }
  }

  lemma MergeTotals(a: Bucket, g: seq<Trade>, b: Bucket, h: seq<Trade>, f: seq<Trade>, inOrder: bool)
    requires Totals(a, g) && Totals(b, h) && Together(f, g, h, inOrder)
    ensures Totals(Merge(a, b), f)
    ensures inOrder && Candle(a, g) && Candle(b, h) ==> Candle(Merge(a, b), f)
  {
    WrappedSum(a.count, TallyOf(g).count, b.count, TallyOf(h).count);
    MergeRange(a, g, b, h, f);
  }

  lemma MergeRange(a: Bucket, g: seq<Trade>, b: Bucket, h: seq<Trade>, f: seq<Trade>)
    requires InRange(a, g) && InRange(b, h) && Members(f) == Members(g) + Members(h)
    ensures InRange(Merge(a, b), f)
  {
    var l1 :| l1 in g && l1.price == a.low;
    var l2 :| l2 in h && l2.price == b.low;
    var h1 :| h1 in g && h1.price == a.high;
    var h2 :| h2 in h && h2.price == b.high;
    assert {l1, l2, h1, h2} <= Members(f);
    forall t | t in f ensures t in g || t in h { assert t in Members(f); }
  }

  /** A merged bucket stands for the trades of the whole stretch; it is their candle if they came in order. */
  predicate Stands(r: Option<Bucket>, market: string, window: int, f: seq<Trade>, inOrder: bool) {
    && (r.None? <==> f == [])
    && (r.Some? ==> r.value.market == market && r.value.window == window && Totals(r.value, f)
                    && (inOrder ==> Candle(r.value, f)))
  }

  lemma {:induction false} MergedSecondsStand(ts: seq<Trade>, market: string, lo: int, k: nat, hi: int)
    requires IsWindow(lo, SECOND) && hi == lo + k * SECOND
    ensures var f := In(ts, market, lo, hi);
      Stands(MergeSeconds(Build(ts, SECOND), market, lo, k), market, lo, f, InSecondOrder(ts))
    decreases k
  {
    if k == 0 {
      EmptyStretch(ts, market, lo);
    } else {
      var mid := hi - SECOND;
      MergedSecondsStand(ts, market, lo, k - 1, mid);
      SecondsFrom(lo, k - 1);
      OneMoreSecond(ts, market, lo, k, mid);
    }
  }

  lemma SecondsFrom(lo: int, k: nat)
    requires IsWindow(lo, SECOND)
    ensures IsWindow(lo + k * SECOND, SECOND)
  {}

  lemma OneMoreSecond(ts: seq<Trade>, market: string, lo: int, k: nat, mid: int)
    requires k > 0 && IsWindow(mid, SECOND) && mid == lo + (k - 1) * SECOND
    requires var f := In(ts, market, lo, mid);
      Stands(MergeSeconds(Build(ts, SECOND), market, lo, k - 1), market, lo, f, InSecondOrder(ts))
    ensures var f := In(ts, market, lo, mid + SECOND);
      Stands(MergeSeconds(Build(ts, SECOND), market, lo, k), market, lo, f, InSecondOrder(ts))
  {
    var m := Build(ts, SECOND);
    var before, next := MergeSeconds(m, market, lo, k - 1), Lookup(m, Key(market, mid));
    MergeSecondsUnfolds(m, market, lo, k, mid);
    BucketStands(ts, market, mid);
    JoinStretches(ts, market, lo, mid, mid + SECOND);
    CombineStands(before, In(ts, market, lo, mid), next, mid, In(ts, market, mid, mid + SECOND),
                  market, lo, In(ts, market, lo, mid + SECOND), InSecondOrder(ts));
  }

  lemma MergeSecondsUnfolds(m: Buckets, market: string, lo: int, k: nat, mid: int)
    requires k > 0 && mid == lo + (k - 1) * SECOND
    ensures MergeSeconds(m, market, lo, k)
         == Combine(MergeSeconds(m, market, lo, k - 1), Lookup(m, Key(market, mid)), lo)
  {}

  lemma BucketStands(ts: seq<Trade>, market: string, w: int)
    requires IsWindow(w, SECOND)
    ensures var f := In(ts, market, w, w + SECOND);
      Stands(Lookup(Build(ts, SECOND), Key(market, w)), market, w, f, InSecondOrder(ts))
  {
    BucketsAreCandles(ts, market, w, SECOND);
  }

  lemma {:induction false} EmptyStretch(ts: seq<Trade>, market: string, lo: int)
    ensures In(ts, market, lo, lo) == []
  {
    if ts != [] { EmptyStretch(ts[..|ts| - 1], market, lo); }
  }

  lemma CombineStands(before: Option<Bucket>, g: seq<Trade>, next: Option<Bucket>, w: int, h: seq<Trade>,
                      market: string, window: int, f: seq<Trade>, inOrder: bool)
    requires Stands(before, market, window, g, inOrder) && Stands(next, market, w, h, inOrder)
    requires Together(f, g, h, inOrder)
    ensures Stands(Combine(before, next, window), market, window, f, inOrder)
  {
    match (before, next)
    case (None, None) =>
    case (Some(a), None) => SameTotals(a, g, a, f);
    case (None, Some(b)) => SameTotals(b, h, b.(window := window), f);
    case (Some(a), Some(b)) => MergeTotals(a, g, b, h, f, inOrder);
  }

  lemma SameTotals(a: Bucket, g: seq<Trade>, b: Bucket, f: seq<Trade>)
    requires Totals(a, g) && b == a.(window := b.window) && TallyOf(f) == TallyOf(g) && Members(f) == Members(g)
    ensures Totals(b, f)
  {
    var l :| l in g && l.price == a.low;
    var h :| h in g && h.price == a.high;
    assert {l, h} <= Members(f);
    forall t | t in f ensures t in g { assert t in Members(f); }
  }

  /** Equal but for the opening and closing price. */
  predicate SameButOrder(a: Bucket, b: Bucket) { a.(open := b.open, close := b.close) == b }

  /**
   Merging the sixty one-second buckets of a minute gives the minute's own bucket: exactly, when trades arrived in
   order of their seconds; in count, sums, high and low whatever the order of arrival.
   */
  lemma MinuteFromSeconds(ts: seq<Trade>, market: string, minute: int)
    requires IsWindow(minute, MINUTE)
    ensures var seconds := MergeSeconds(Build(ts, SECOND), market, minute, 60);
      var whole := Lookup(Build(ts, MINUTE), Key(market, minute));
      && (seconds.Some? <==> whole.Some?)
      && (seconds.Some? ==> SameButOrder(seconds.value, whole.value))
      && (InSecondOrder(ts) ==> seconds == whole)
  {
    WholeSeconds(minute, MINUTE);
    MergedSecondsStand(ts, market, minute, 60, minute + MINUTE);
    BucketsAreCandles(ts, market, minute, MINUTE);
    var seconds := MergeSeconds(Build(ts, SECOND), market, minute, 60);
    if seconds.Some? {
      TotalsAreUnique(seconds.value, Build(ts, MINUTE)[Key(market, minute)], In(ts, market, minute, minute + MINUTE));
    }
  }

  lemma TotalsAreUnique(a: Bucket, b: Bucket, ts: seq<Trade>)
    requires Totals(a, ts) && Totals(b, ts) && a.market == b.market && a.window == b.window
    ensures SameButOrder(a, b)
    ensures Candle(a, ts) && Candle(b, ts) ==> a == b
  {
    assert a.count == b.count;
  }

  // ---- The flushed average ----

  /** The average a second's row carries. */
  function Average(b: Bucket): real { if b.volume > 0.0 then b.priceSumWt / b.volume else 0.0 }

  predicate Between(t: Tally, low: real, high: real) { low * t.volume <= t.weight <= high * t.volume }

  lemma {:induction false} WeightedBetween(ts: seq<Trade>, low: real, high: real)
    requires forall i | 0 <= i < |ts| :: ts[i].size >= 0.0 && low <= ts[i].price <= high
    ensures Between(TallyOf(ts), low, high)
  {
    if ts != [] {
      WeightedBetween(ts[..|ts| - 1], low, high);
      OneMoreBetween(TallyOf(ts[..|ts| - 1]), ts[|ts| - 1], low, high);
    }
  }

  lemma OneMoreBetween(before: Tally, t: Trade, low: real, high: real)
    requires Between(before, low, high) && t.size >= 0.0 && low <= t.price <= high
    ensures Between(Plus(before, One(t)), low, high)
  {
    Scale(low, t.price, t.size);
    Scale(t.price, high, t.size);
    Distribute(low, before.volume, t.size);
    Distribute(high, before.volume, t.size);
  }

  /** For nonnegative sizes the volume is positive exactly if some size is. */
  lemma {:induction false} PositiveVolume(ts: seq<Trade>)
    requires forall t | t in ts :: t.size >= 0.0
    ensures TallyOf(ts).volume >= 0.0
    ensures TallyOf(ts).volume > 0.0 <==> exists t | t in ts :: t.size > 0.0
  {
    if ts != [] {
      var init, last := ts[..|ts| - 1], ts[|ts| - 1];
      assert ts == init + [last];
      PositiveVolume(init);
      if last.size > 0.0 { assert last in ts; }
      if t :| t in init && t.size > 0.0 { assert t in ts; }
    }
  }

  /** The flushed average is the mean price weighted by size, or 0 for a row without positive volume. */
  lemma AverageIsWeighted(b: Bucket, ts: seq<Trade>)
    requires Totals(b, ts)
    ensures TallyOf(ts).volume > 0.0 ==> Average(b) * TallyOf(ts).volume == TallyOf(ts).weight
    ensures TallyOf(ts).volume <= 0.0 ==> Average(b) == 0.0
  {
    if b.volume > 0.0 { QuotientTimes(b.priceSumWt, b.volume); }
  }

  lemma QuotientTimes(w: real, v: real)
    requires v > 0.0
    ensures w / v * v == w
  {}

  /**
   For nonnegative sizes open and close lie between low and high, and so does the average, exactly if something was
   traded or zero lies there too: without volume a row carries the average 0.
   */
  lemma AverageInsideCandle(b: Bucket, ts: seq<Trade>)
    requires Candle(b, ts) && forall t | t in ts :: t.size >= 0.0
    ensures b.low <= b.open <= b.high && b.low <= b.close <= b.high
    ensures b.low <= Average(b) <= b.high <==> (exists t | t in ts :: t.size > 0.0) || b.low <= 0.0 <= b.high
  {
    PositiveVolume(ts);
    assert ts[0] in ts && ts[|ts| - 1] in ts;
    if b.volume > 0.0 {
      WeightedBetween(ts, b.low, b.high);
      QuotientBetween(b.low, b.priceSumWt, b.high, b.volume);
    }
  }

  lemma QuotientBetween(low: real, w: real, high: real, v: real)
    requires v > 0.0 && low * v <= w <= high * v
    ensures low <= w / v <= high
  {
    var q := w / v;
    assert q * v == w;
    if q < low { ScaleStrictly(q, low, v); }
    if q > high { ScaleStrictly(high, q, v); }
  }

  predicate CandleOf(m: Buckets, ts: seq<Trade>, key: string, market: string, window: int, d: int) {
    key in m && key == Key(market, window) && Candle(m[key], In(ts, market, window, window + d))
  }

  /** Every bucket a run of trades leaves behind is the candle of the trades of one market and window. */
  lemma {:induction false} EveryBucketIsACandle(ts: seq<Trade>, d: int, key: string)
    requires (d == SECOND || d == MINUTE) && key in Build(ts, d)
    ensures exists t | t in ts :: CandleOf(Build(ts, d), ts, key, t.market, Truncate(t.time, d), d)
  {
    var t := TradeOfKey(ts, d, key);
    KeyOfTrade(ts, t, d);
  }

  lemma KeyOfTrade(ts: seq<Trade>, t: Trade, d: int)
    requires (d == SECOND || d == MINUTE) && t in ts
    ensures var w := Truncate(t.time, d); CandleOf(Build(ts, d), ts, Key(t.market, w), t.market, w, d)
  {
    var w := Truncate(t.time, d);
    TruncateFloors(t.time, w, d);
    InIff(ts, t.market, w, w + d, t);
    BucketsAreCandles(ts, t.market, w, d);
  }

  /** Every trade's one-second bucket has its one-minute bucket, whose window is the second's, truncated again. */
  lemma SecondHasItsMinute(ts: seq<Trade>, t: Trade)
    requires t in ts
    ensures var second := Truncate(t.time, SECOND); var minute := Truncate(second, MINUTE);
      && CandleOf(Build(ts, SECOND), ts, Key(t.market, second), t.market, second, SECOND)
      && CandleOf(Build(ts, MINUTE), ts, Key(t.market, minute), t.market, minute, MINUTE)
  {
    MinuteOfSecond(t.time);
    KeyOfTrade(ts, t, SECOND);
    KeyOfTrade(ts, t, MINUTE);
  }

  lemma {:induction false} TradeOfKey(ts: seq<Trade>, d: int, key: string) returns (t: Trade)
    requires d > 0 && key in Build(ts, d)
    ensures t in ts && key == Key(t.market, Truncate(t.time, d))
  {
    t := ts[|ts| - 1];
    if key != Key(t.market, Truncate(t.time, d)) { t := TradeOfKey(ts[..|ts| - 1], d, key); }
  }
}
