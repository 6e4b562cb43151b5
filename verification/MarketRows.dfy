/**
 The rows that one market's trades of one window leave in all the maps swapped out one after the other: a window
 may be cut by swaps, and its one-second and one-minute rows are cut at different moments.
 */
module MarketRows {
  import opened Aggregation
  import opened AggregatorRuns

  /** The rows under one key, oldest first. */
  function Rows(maps: seq<Buckets>, key: string): seq<Bucket> {
    if maps == [] then []
    else
      var before, last := Rows(maps[..|maps| - 1], key), maps[|maps| - 1];
      if key in last then before + [last[key]] else before
  }

  /** The rows under several keys, one key after the other. */
  function RowsOf(maps: seq<Buckets>, keys: seq<string>): seq<Bucket> {
    if keys == [] then [] else RowsOf(maps, keys[..|keys| - 1]) + Rows(maps, keys[|keys| - 1])
  }

  function SecondKeys(market: string, minute: int): seq<string> {
    seq(60, (i: nat) => Key(market, minute + i * SECOND))
  }

  function RowSums(rows: seq<Bucket>): Tally {
    if rows == [] then ZERO else Plus(RowSums(rows[..|rows| - 1]), Sums(rows[|rows| - 1]))
  }

  /** Every price lies within some row, and the bounds of every row are prices. */
  predicate Spans(rows: seq<Bucket>, ts: seq<Trade>) {
    && (forall t {:trigger Within(rows, t.price)} | t in ts :: Within(rows, t.price))
    && (forall b {:trigger Bounded(ts, b)} | b in rows :: Bounded(ts, b))
  }

  predicate Bounded(ts: seq<Trade>, b: Bucket) { Priced(ts, b.low) && Priced(ts, b.high) }

  predicate Within(rows: seq<Bucket>, price: real) { exists b | b in rows :: b.low <= price <= b.high }

  /** The rows account for the trades: the same sums, and the same range. */
  predicate Account(rows: seq<Bucket>, ts: seq<Trade>) { Agrees(RowSums(rows), TallyOf(ts)) && Spans(rows, ts) }

  lemma {:induction false} RowSumsOfConcat(a: seq<Bucket>, b: seq<Bucket>)
    ensures RowSums(a + b) == Plus(RowSums(a), RowSums(b))
  {
    if b == [] {
      assert a + b == a;
    } else {
      assert (a + b)[..|a + b| - 1] == a + b[..|b| - 1];
      RowSumsOfConcat(a, b[..|b| - 1]);
    }
  }

  /** Rows for two sets of trades, put together, account for all of them. */
  lemma AccountJoin(rows1: seq<Bucket>, g: seq<Trade>, rows2: seq<Bucket>, h: seq<Trade>, f: seq<Trade>)
    requires Account(rows1, g) && Account(rows2, h) && Together(f, g, h, false)
    ensures Account(rows1 + rows2, f)
  {
    RowSumsOfConcat(rows1, rows2);
    AgreesPlus(RowSums(rows1), TallyOf(g), RowSums(rows2), TallyOf(h));
    SpansJoin(rows1, g, rows2, h, f);
  }

  lemma SpansJoin(rows1: seq<Bucket>, g: seq<Trade>, rows2: seq<Bucket>, h: seq<Trade>, f: seq<Trade>)
    requires Spans(rows1, g) && Spans(rows2, h) && Members(f) == Members(g) + Members(h)
    ensures Spans(rows1 + rows2, f)
  {
    var rows := rows1 + rows2;
    forall t | t in f ensures Within(rows, t.price) {
      assert t in Members(f);
      if t in g {
        assert Within(rows1, t.price);
        WithinMore(rows1, rows, t.price);
      } else {
        assert t in h && Within(rows2, t.price);
        WithinMore(rows2, rows, t.price);
      }
    }
    forall b | b in rows ensures Bounded(f, b) {
      if b in rows1 { assert Bounded(g, b); BoundedIn(g, f, b); } else { assert Bounded(h, b); BoundedIn(h, f, b); }
    }
  }

  lemma WithinMore(rows: seq<Bucket>, more: seq<Bucket>, price: real)
    requires Within(rows, price) && forall b | b in rows :: b in more
    ensures Within(more, price)
  {
    var b :| b in rows && b.low <= price <= b.high;
    assert b in more;
  }

  lemma BoundedIn(g: seq<Trade>, f: seq<Trade>, b: Bucket)
    requires Members(g) <= Members(f) && Bounded(g, b)
    ensures Bounded(f, b)
  {
    var l :| l in g && l.price == b.low;
    var h :| h in g && h.price == b.high;
    assert {l, h} <= Members(f);
  }

  lemma OneRow(b: Bucket, ts: seq<Trade>)
    requires Totals(b, ts)
    ensures Account([b], ts)
  {
    assert [b][..0] == [];
    assert b in [b];
    forall t | t in ts ensures Within([b], t.price) {}
  }

  lemma TogetherConcat(g: seq<Trade>, h: seq<Trade>)
    ensures Together(g + h, g, h, false)
  {
    TallyOfConcat(g, h);
  }

  lemma {:induction false} InConcat(ts: seq<Trade>, us: seq<Trade>, market: string, lo: int, hi: int)
    ensures In(ts + us, market, lo, hi) == In(ts, market, lo, hi) + In(us, market, lo, hi)
  {
    if us == [] {
      assert ts + us == ts;
    } else {
      assert (ts + us)[..|ts + us| - 1] == ts + us[..|us| - 1];
      InConcat(ts, us[..|us| - 1], market, lo, hi);
    }
  }

  /** The map built from `ts` has a row under `key` exactly if the market traded in the window, and it is theirs. */
  predicate RowFor(m: Buckets, ts: seq<Trade>, key: string, market: string, w: int, d: int) {
    var trades := In(ts, market, w, w + d);
    (key in m <==> trades != []) && (key in m ==> Totals(m[key], trades))
  }

  predicate RowsFor(maps: seq<Buckets>, g: seq<seq<Trade>>, key: string, market: string, w: int, d: int) {
    |maps| == |g| && forall i | 0 <= i < |maps| :: RowFor(maps[i], g[i], key, market, w, d)
  }

  lemma KeyHasRows(maps: seq<Buckets>, g: seq<seq<Trade>>, market: string, w: int, d: int)
    requires (d == SECOND || d == MINUTE) && IsWindow(w, d) && BuiltFrom(maps, g, d)
    ensures RowsFor(maps, g, Key(market, w), market, w, d)
  {
    forall i | 0 <= i < |maps| ensures RowFor(maps[i], g[i], Key(market, w), market, w, d) {
      BucketsAreCandles(g[i], market, w, d);
    }
  }

  /** Wherever the swaps fall, the rows of a window account for the trades of that window. */
  lemma {:induction false} RowsAccount(maps: seq<Buckets>, g: seq<seq<Trade>>, key: string, market: string,
                                       w: int, d: int)
    requires RowsFor(maps, g, key, market, w, d)
    ensures Account(Rows(maps, key), In(Flatten(g), market, w, w + d))
  {
    if maps != [] {
      var n := |maps| - 1;
      assert RowFor(maps[n], g[n], key, market, w, d);
      RowsAccount(maps[..n], g[..n], key, market, w, d);
      OneMoreMap(Rows(maps[..n], key), Flatten(g[..n]), maps[n], g[n], key, market, w, d);
    }
  }

  lemma OneMoreMap(rows: seq<Bucket>, ts: seq<Trade>, m: Buckets, us: seq<Trade>, key: string, market: string,
                   w: int, d: int)
    requires RowFor(m, us, key, market, w, d) && Account(rows, In(ts, market, w, w + d))
    ensures Account(if key in m then rows + [m[key]] else rows, In(ts + us, market, w, w + d))
  {
    InConcat(ts, us, market, w, w + d);
    var before, now := In(ts, market, w, w + d), In(us, market, w, w + d);
    if key in m { AddRow(rows, before, m[key], now); } else { assert before + now == before; }
  }

  lemma AddRow(rows: seq<Bucket>, ts: seq<Trade>, b: Bucket, us: seq<Trade>)
    requires Account(rows, ts) && Totals(b, us)
    ensures Account(rows + [b], ts + us)
  {
    OneRow(b, us);
    TogetherConcat(ts, us);
    AccountJoin(rows, ts, [b], us, ts + us);
  }

  /** The `i`-th key is that of the `i`-th second from `lo` on. */
  predicate SecondFor(maps: seq<Buckets>, g: seq<seq<Trade>>, keys: seq<string>, market: string, lo: int, i: nat) {
    i < |keys| && RowsFor(maps, g, keys[i], market, lo + i * SECOND, SECOND)
  }

  lemma {:induction false} SecondsAccount(maps: seq<Buckets>, g: seq<seq<Trade>>, keys: seq<string>, market: string,
                                          lo: int, hi: int)
    requires IsWindow(lo, SECOND) && hi == lo + |keys| * SECOND
    requires forall i: nat | i < |keys| :: SecondFor(maps, g, keys, market, lo, i)
    ensures Account(RowsOf(maps, keys), In(Flatten(g), market, lo, hi))
    decreases |keys|
  {
    if keys == [] {
      EmptyStretch(Flatten(g), market, lo);
    } else {
      var n := |keys| - 1;
      forall i: nat | i < n ensures SecondFor(maps, g, keys[..n], market, lo, i) {
        assert SecondFor(maps, g, keys, market, lo, i);
      }
      assert SecondFor(maps, g, keys, market, lo, n);
      SecondsAccount(maps, g, keys[..n], market, lo, hi - SECOND);
      SecondsFrom(lo, n);
      OneMoreSecond(RowsOf(maps, keys[..n]), maps, g, keys[n], market, lo, hi - SECOND);
    }
  }

  lemma OneMoreSecond(rows: seq<Bucket>, maps: seq<Buckets>, g: seq<seq<Trade>>, key: string, market: string,
                      lo: int, mid: int)
    requires lo <= mid && IsWindow(mid, SECOND) && RowsFor(maps, g, key, market, mid, SECOND)
    requires Account(rows, In(Flatten(g), market, lo, mid))
    ensures Account(rows + Rows(maps, key), In(Flatten(g), market, lo, mid + SECOND))
  {
    var all := Flatten(g);
    RowsAccount(maps, g, key, market, mid, SECOND);
    JoinStretches(all, market, lo, mid, mid + SECOND);
    AccountJoin(rows, In(all, market, lo, mid), Rows(maps, key), In(all, market, mid, mid + SECOND),
                In(all, market, lo, mid + SECOND));
  }

  predicate HighestAtMost(rows: seq<Bucket>, x: real) { forall b | b in rows :: b.high <= x }
  predicate LowestAtLeast(rows: seq<Bucket>, x: real) { forall b | b in rows :: b.low >= x }

  /** The highest and lowest value of the rows are the highest and lowest price of the trades. */
  lemma Extremes(rows: seq<Bucket>, ts: seq<Trade>, x: real)
    requires Spans(rows, ts)
    ensures HighestAtMost(rows, x) <==> forall t | t in ts :: t.price <= x
    ensures LowestAtLeast(rows, x) <==> forall t | t in ts :: t.price >= x
  {
    forall t | t in ts ensures HighestAtMost(rows, x) ==> t.price <= x {
      var b := Around(rows, ts, t);
    }
    forall t | t in ts ensures LowestAtLeast(rows, x) ==> t.price >= x {
      var b := Around(rows, ts, t);
    }
    forall b | b in rows
      ensures (forall t | t in ts :: t.price <= x) ==> b.high <= x
      ensures (forall t | t in ts :: t.price >= x) ==> b.low >= x
    {
      var l, h := Bounds(rows, ts, b);
    }
  }

  lemma Around(rows: seq<Bucket>, ts: seq<Trade>, t: Trade) returns (b: Bucket)
    requires Spans(rows, ts) && t in ts
    ensures b in rows && b.low <= t.price <= b.high
  {
    assert Within(rows, t.price);
    b :| b in rows && b.low <= t.price <= b.high;
  }

  lemma Bounds(rows: seq<Bucket>, ts: seq<Trade>, b: Bucket) returns (l: Trade, h: Trade)
    requires Spans(rows, ts) && b in rows
    ensures l in ts && l.price == b.low && h in ts && h.price == b.high
  {
    assert Bounded(ts, b);
    l :| l in ts && l.price == b.low;
    h :| h in ts && h.price == b.high;
  }

  lemma RowsIffTrades(rows: seq<Bucket>, ts: seq<Trade>)
    requires Spans(rows, ts)
    ensures rows == [] <==> ts == []
  {
    if rows != [] { var l, h := Bounds(rows, ts, rows[0]); }
    if ts != [] { var b := Around(rows, ts, ts[0]); }
  }

  /**
   In any interleaving of trades and swaps, over everything swapped out and what is left, one market's rows for a
   minute: those of its sixty seconds and those of the minute itself have the same count (to the counter's width),
   volume and weighted sum, the same high and the same low, which are those of the trades consumed.
   */
  lemma MinuteRowsAgree(es: seq<Event>, market: string, minute: int)
    requires IsWindow(minute, MINUTE)
    ensures var s := Run(es); var ts := In(Trades(es), market, minute, minute + MINUTE);
      var seconds := RowsOf(s.flushedSeconds + [s.seconds], SecondKeys(market, minute));
      var minutes := Rows(s.flushedMinutes + [s.minutes], Key(market, minute));
      && Agrees(RowSums(seconds), TallyOf(ts)) && Agrees(RowSums(minutes), TallyOf(ts))
      && Agrees(RowSums(seconds), RowSums(minutes))
      && (seconds == [] <==> minutes == [])
      && (forall x :: HighestAtMost(seconds, x) <==> HighestAtMost(minutes, x))
      && (forall x :: LowestAtLeast(seconds, x) <==> LowestAtLeast(minutes, x))
  {
    var s, ts := Run(es), In(Trades(es), market, minute, minute + MINUTE);
    var seconds := RowsOf(s.flushedSeconds + [s.seconds], SecondKeys(market, minute));
    var minutes := Rows(s.flushedMinutes + [s.minutes], Key(market, minute));
    AllAccount(es, market, minute);
    RowsIffTrades(seconds, ts);
    RowsIffTrades(minutes, ts);
    forall x ensures HighestAtMost(seconds, x) <==> HighestAtMost(minutes, x) {
      Extremes(seconds, ts, x);
      Extremes(minutes, ts, x);
    }
    forall x ensures LowestAtLeast(seconds, x) <==> LowestAtLeast(minutes, x) {
      Extremes(seconds, ts, x);
      Extremes(minutes, ts, x);
    }
  }

  lemma AllAccount(es: seq<Event>, market: string, minute: int)
    requires IsWindow(minute, MINUTE)
    ensures var s := Run(es); var ts := In(Trades(es), market, minute, minute + MINUTE);
      && Account(RowsOf(s.flushedSeconds + [s.seconds], SecondKeys(market, minute)), ts)
      && Account(Rows(s.flushedMinutes + [s.minutes], Key(market, minute)), ts)
  {
    var s := Run(es);
    FlushedGenerations(es);
    GenerationsPartition(es, SwapSeconds);
    GenerationsPartition(es, SwapMinutes);
    WholeSeconds(minute, MINUTE);
    SecondsOfMinute(s.flushedSeconds + [s.seconds], Generations(es, SwapSeconds), market, minute);
    var maps, g := s.flushedMinutes + [s.minutes], Generations(es, SwapMinutes);
    KeyHasRows(maps, g, market, minute, MINUTE);
    RowsAccount(maps, g, Key(market, minute), market, minute, MINUTE);
  }

  lemma SecondsOfMinute(maps: seq<Buckets>, g: seq<seq<Trade>>, market: string, minute: int)
    requires IsWindow(minute, SECOND) && BuiltFrom(maps, g, SECOND)
    ensures Account(RowsOf(maps, SecondKeys(market, minute)), In(Flatten(g), market, minute, minute + MINUTE))
  {
    forall i: nat | i < 60 ensures SecondFor(maps, g, SecondKeys(market, minute), market, minute, i) {
      SecondHasRows(maps, g, market, minute, i, minute + i * SECOND);
    }
    SixtySeconds(maps, g, market, minute, SecondKeys(market, minute));
  }

  lemma SecondHasRows(maps: seq<Buckets>, g: seq<seq<Trade>>, market: string, minute: int, i: nat, second: int)
    requires IsWindow(minute, SECOND) && BuiltFrom(maps, g, SECOND) && i < 60 && second == minute + i * SECOND
    ensures SecondFor(maps, g, SecondKeys(market, minute), market, minute, i)
  {
    SecondsFrom(minute, i);
    KeyHasRows(maps, g, market, second, SECOND);
  }

  lemma SixtySeconds(maps: seq<Buckets>, g: seq<seq<Trade>>, market: string, minute: int, keys: seq<string>)
    requires |keys| == 60 && IsWindow(minute, SECOND)
    requires forall i: nat | i < 60 :: SecondFor(maps, g, keys, market, minute, i)
    ensures Account(RowsOf(maps, keys), In(Flatten(g), market, minute, minute + MINUTE))
  {
    SecondsAccount(maps, g, keys, market, minute, minute + MINUTE);
  }
}
