/**
 The price engine's state for one market: the 24-hour volume kept as a running sum over a queue of trades.
 Trades and book updates come from two goroutines that take turns on the state's lock; only trades evict.
 Times are in milliseconds, prices and sizes exact reals.
 */
module PriceEngine {

  const DAY := 86_400_000

  datatype TradePoint = TradePoint(ts: int, val: real)

  /** `now` is read once for the trade itself and once, later, for the cutoff. */
  datatype Event =
    | Trade(price: real, size: real, now: int, later: int)
    | Book(bid: real, ask: real, now: int)

  /** `history` is every trade so far, `evicted` how many of them have left the queue. */
  datatype State = State(volume24h: real, lastTradePrice: real, bestBid: real, bestAsk: real,
                         trades: seq<TradePoint>, history: seq<TradePoint>, evicted: nat)

  const INIT := State(0.0, 0.0, 0.0, 0.0, [], [], 0)

  function Sum(ts: seq<TradePoint>): real {
    if ts == [] then 0.0 else ts[0].val + Sum(ts[1..])
  }

  /** How many leading trades are older than `cutoff`. */
  function Stale(ts: seq<TradePoint>, cutoff: int): (n: nat)
    ensures n <= |ts|
    ensures forall i | 0 <= i < n :: ts[i].ts < cutoff
    ensures n < |ts| ==> ts[n].ts >= cutoff
  {
    if ts != [] && ts[0].ts < cutoff then 1 + Stale(ts[1..], cutoff) else 0
  }

  function Notional(price: real, size: real): real { price * size }

  function Next(s: State, e: Event): State {
    match e
    case Trade(price, size, now, later) =>
      var point := TradePoint(now, Notional(price, size));
      var queue := s.trades + [point];
      var n := Stale(queue, later - DAY);
      s.(volume24h := s.volume24h + point.val - Sum(queue[..n]), lastTradePrice := price,
         trades := queue[n..], history := s.history + [point], evicted := s.evicted + n)
    case Book(bid, ask, _) =>
      if bid > 0.0 && ask > 0.0 then s.(bestBid := bid, bestAsk := ask) else s
  }

  function Run(es: seq<Event>): State {
    if es == [] then INIT else Next(Run(es[..|es| - 1]), es[|es| - 1])
  }

  /** The trades of a run, with the time and the value at which each was taken in. */
  function Arrived(es: seq<Event>): seq<TradePoint> {
    if es == [] then []
    else match es[|es| - 1]
      case Trade(price, size, now, _) => Arrived(es[..|es| - 1]) + [TradePoint(now, price * size)]
      case Book(_, _, _) => Arrived(es[..|es| - 1])
  }

  lemma {:induction false} HistoryIsArrived(es: seq<Event>)
    ensures Run(es).history == Arrived(es)
  {
    if es != [] { HistoryIsArrived(es[..|es| - 1]); }
  }

  /** Bid and ask of the last book with two sides. */
  function LastQuote(es: seq<Event>): (real, real) {
    if es == [] then (0.0, 0.0)
    else match es[|es| - 1]
      case Book(bid, ask, _) => if bid > 0.0 && ask > 0.0 then (bid, ask) else LastQuote(es[..|es| - 1])
      case Trade(_, _, _, _) => LastQuote(es[..|es| - 1])
  }

  function LastPrice(es: seq<Event>): real {
    if es == [] then 0.0
    else match es[|es| - 1]
      case Trade(price, _, _, _) => price
      case Book(_, _, _) => LastPrice(es[..|es| - 1])
  }

  /** What the state carries from one goroutine to the other: the last two-sided quote and the last trade's price. */
  lemma {:induction false} CarriesLast(es: seq<Event>)
    ensures (Run(es).bestBid, Run(es).bestAsk) == LastQuote(es) && Run(es).lastTradePrice == LastPrice(es)
  {
    if es != [] { CarriesLast(es[..|es| - 1]); }
  }

  function Start(e: Event): int { e.now }
  function End(e: Event): int { if e.Trade? then e.later else e.now }

  /** The clock never runs backwards. */
  predicate Monotone(es: seq<Event>) {
    && (forall e | e in es :: Start(e) <= End(e))
    && (forall i, j | 0 <= i < j < |es| :: End(es[i]) <= Start(es[j]))
  }

  // ---- Sums ----

  lemma {:induction false} SumConcat(xs: seq<TradePoint>, ys: seq<TradePoint>)
    ensures Sum(xs + ys) == Sum(xs) + Sum(ys)
  {
    if xs == [] {
      assert xs + ys == ys;
    } else {
      assert (xs + ys)[1..] == xs[1..] + ys;
      SumConcat(xs[1..], ys);
    }
  }

  lemma {:induction false} SumNonNegative(xs: seq<TradePoint>)
    requires forall i | 0 <= i < |xs| :: xs[i].val >= 0.0
    ensures Sum(xs) >= 0.0
    ensures Sum(xs) == 0.0 <==> forall i | 0 <= i < |xs| :: xs[i].val <= 0.0
  {
    if xs != [] {
      SumNonNegative(xs[1..]);
      assert forall i | 0 < i < |xs| :: xs[i] == xs[1..][i - 1];
    }
  }

  // ---- The window ----

  /** The trades of a history no older than a day at time `now`. */
  function Recent(history: seq<TradePoint>, now: int): seq<TradePoint> {
    if history == [] then []
    else
      var last, before := history[|history| - 1], Recent(history[..|history| - 1], now);
      if last.ts >= now - 24 * 60 * 60 * 1000 then before + [last] else before
  }

  predicate Ordered(ts: seq<TradePoint>) { forall i, j | 0 <= i < j < |ts| :: ts[i].ts <= ts[j].ts }

  /** What holds after every event, the last of them ending at `now`. */
  predicate Window(s: State, now: int) {
    && s.evicted <= |s.history| && s.trades == s.history[s.evicted..]
    && s.volume24h == Sum(s.trades)
    && Ordered(s.history)
    && (forall i | 0 <= i < |s.history| :: s.history[i].ts <= now)
    && (forall i | 0 <= i < s.evicted :: s.history[i].ts < now - DAY)
  }

  /** Pushing a trade and evicting the stale ones cuts the history where the cutoff falls. */
  lemma PushAndEvict(history: seq<TradePoint>, k: nat, point: TradePoint, cutoff: int)
    requires k <= |history| && Ordered(history + [point])
    requires forall i | 0 <= i < k :: history[i].ts < cutoff
    ensures var h, n := history + [point], Stale(history[k..] + [point], cutoff);
      && k + n <= |h| && (history[k..] + [point])[n..] == h[k + n..]
      && (forall i | 0 <= i < k + n :: h[i].ts < cutoff)
      && (forall i | k + n <= i < |h| :: h[i].ts >= cutoff)
  {
    var h, queue := history + [point], history[k..] + [point];
    assert queue == h[k..];
    var n := Stale(queue, cutoff);
    forall i | 0 <= i < k + n ensures h[i].ts < cutoff { if i >= k { assert h[i] == queue[i - k]; } }
    forall i | k + n <= i < |h| ensures h[i].ts >= cutoff { assert h[k + n] == queue[n] && h[k + n].ts <= h[i].ts; }
  }

  lemma StepKeepsWindow(s: State, now: int, e: Event)
    requires Window(s, now) && now <= Start(e) <= End(e)
    ensures Window(Next(s, e), End(e))
    ensures e.Trade? ==>
      var t := Next(s, e); forall i | t.evicted <= i < |t.history| :: t.history[i].ts >= End(e) - DAY
  {
    if e.Trade? {
      TradeKeepsQueue(s, now, e);
      TradeKeepsSum(s, e);
    }
  }

  /** After a trade the queue is the part of the history that the cutoff leaves. */
  lemma TradeKeepsQueue(s: State, now: int, e: Event)
    requires e.Trade? && s.evicted <= |s.history| && s.trades == s.history[s.evicted..]
    requires Ordered(s.history) && (forall i | 0 <= i < |s.history| :: s.history[i].ts <= now)
    requires (forall i | 0 <= i < s.evicted :: s.history[i].ts < e.later - DAY) && now <= e.now <= e.later
    ensures var t := Next(s, e);
      && t.evicted <= |t.history| && t.trades == t.history[t.evicted..]
      && Ordered(t.history) && (forall i | 0 <= i < |t.history| :: t.history[i].ts <= End(e))
      && (forall i | 0 <= i < t.evicted :: t.history[i].ts < End(e) - DAY)
      && (forall i | t.evicted <= i < |t.history| :: t.history[i].ts >= End(e) - DAY)
  {
    var point := TradePoint(e.now, Notional(e.price, e.size));
    PushKeepsOrder(s.history, point, now);
    PushAndEvict(s.history, s.evicted, point, e.later - DAY);
    NextTrade(s, e, point);
  }

  lemma PushKeepsOrder(history: seq<TradePoint>, point: TradePoint, now: int)
    requires Ordered(history) && (forall i | 0 <= i < |history| :: history[i].ts <= now) && now <= point.ts
    ensures Ordered(history + [point])
    ensures forall i | 0 <= i < |history + [point]| :: (history + [point])[i].ts <= point.ts
  {}

  lemma NextTrade(s: State, e: Event, point: TradePoint)
    requires e.Trade? && point == TradePoint(e.now, Notional(e.price, e.size))
    ensures var t, n := Next(s, e), Stale(s.trades + [point], e.later - DAY);
      t.history == s.history + [point] && t.evicted == s.evicted + n && t.trades == (s.trades + [point])[n..]
  {}

  lemma TradeKeepsSum(s: State, e: Event)
    requires e.Trade? && s.volume24h == Sum(s.trades)
    ensures Next(s, e).volume24h == Sum(Next(s, e).trades)
  {
    var point := TradePoint(e.now, Notional(e.price, e.size));
    SumAfterEviction(s.trades, point, Stale(s.trades + [point], e.later - DAY));
  }

  lemma SumAfterEviction(trades: seq<TradePoint>, point: TradePoint, n: nat)
    requires n <= |trades| + 1
    ensures var queue := trades + [point]; Sum(queue[n..]) == Sum(trades) + point.val - Sum(queue[..n])
  {
    var queue := trades + [point];
    SumConcat(trades, [point]);
    SumOne(point);
    SumSplit(queue, n);
  }

  lemma SumOne(point: TradePoint)
    ensures Sum([point]) == point.val
  {
    assert [point][1..] == [];
  }

  lemma SumSplit(xs: seq<TradePoint>, n: nat)
    requires n <= |xs|
    ensures Sum(xs) == Sum(xs[..n]) + Sum(xs[n..])
  {
    SumConcat(xs[..n], xs[n..]);
    assert xs == xs[..n] + xs[n..];
  }

  lemma {:induction false} RunKeepsWindow(es: seq<Event>)
    requires Monotone(es) && es != []
    ensures Window(Run(es), End(es[|es| - 1]))
  {
    var es', e := es[..|es| - 1], es[|es| - 1];
    assert e in es;
    if es' == [] {
      StepKeepsWindow(INIT, Start(e), e);
    } else {
      assert forall x | x in es' :: x in es;
      RunKeepsWindow(es');
      assert End(es'[|es'| - 1]) <= Start(e);
      StepKeepsWindow(Run(es'), End(es'[|es'| - 1]), e);
    }
  }

  lemma {:induction false} RecentIsSuffix(history: seq<TradePoint>, k: nat, now: int)
    requires k <= |history|
    requires forall i | 0 <= i < k :: history[i].ts < now - DAY
    requires forall i | k <= i < |history| :: history[i].ts >= now - DAY
    ensures Recent(history, now) == history[k..]
  {
    if history != [] {
      var n := |history| - 1;
      RecentIsSuffix(history[..n], if k <= n then k else n, now);
      if k <= n { assert history[k..] == history[..n][k..] + [history[n]]; }
    }
  }

  /**
   After every trade the queue holds exactly the past trades no older than 24 hours, in order of arrival, and
   the running sum is theirs.
   */
  lemma WindowIsExact(es: seq<Event>)
    requires Monotone(es) && es != [] && es[|es| - 1].Trade?
    ensures var s, now := Run(es), End(es[|es| - 1]);
      s.trades == Recent(Arrived(es), now) && s.volume24h == Sum(Recent(Arrived(es), now))
  {
    HistoryIsArrived(es);
    var es', e := es[..|es| - 1], es[|es| - 1];
    var s, t := Run(es'), Run(es);
    assert e in es;
    var before := if es' == [] then Start(e) else End(es'[|es'| - 1]);
    if es' != [] {
      assert forall x | x in es' :: x in es;
      RunKeepsWindow(es');
    }
    StepKeepsWindow(s, before, e);
    RecentIsSuffix(t.history, t.evicted, End(e));
  }

  /** Trades leave the queue once, in order: history is what was evicted, then the queue, and nothing comes back. */
  lemma {:induction false} EvictedOnce(es: seq<Event>, n: nat)
    requires n <= |es|
    ensures Run(es[..n]).history <= Run(es).history && Run(es[..n]).evicted <= Run(es).evicted <= |Run(es).history|
    ensures Arrived(es) == Run(es).history == Run(es).history[..Run(es).evicted] + Run(es).trades
  {
    HistoryIsArrived(es);
    if es == [] {
      assert es[..n] == es;
    } else {
      var es' := es[..|es| - 1];
      EvictedOnce(es', if n < |es| then n else |es'|);
      if n < |es| { assert es'[..n] == es[..n]; } else { assert es[..n] == es; }
      if es[|es| - 1].Trade? { EvictStep(Run(es'), es[|es| - 1]); }
    }
  }

  lemma EvictStep(s: State, e: Event)
    requires e.Trade? && s.evicted <= |s.history| && s.history == s.history[..s.evicted] + s.trades
    ensures var t := Next(s, e); t.evicted <= |t.history| && t.history == t.history[..t.evicted] + t.trades
  {
    var t := Next(s, e);
    var queue := s.trades + [t.history[|s.history|]];
    assert t.history == s.history[..s.evicted] + queue;
    var n := t.evicted - s.evicted;
    assert queue == queue[..n] + queue[n..];
  }

  /**
   At any later time, the volume a book update publishes, which evicts nothing, is never below the true 24-hour
   volume, for nonnegative notionals; it is that volume exactly if no trade older than a day that is still queued
   has a positive one.
   */
  lemma BookVolumeNeverTooLow(es: seq<Event>, now: int)
    requires Monotone(es) && es != [] && End(es[|es| - 1]) <= now
    requires forall i | 0 <= i < |Arrived(es)| :: Arrived(es)[i].val >= 0.0
    ensures Run(es).volume24h >= Sum(Recent(Arrived(es), now))
    ensures Run(es).volume24h == Sum(Recent(Arrived(es), now)) <==> NoStaleValue(Run(es).trades, now)
  {
    HistoryIsArrived(es);
    RunKeepsWindow(es);
    QueueCoversRecent(Run(es), End(es[|es| - 1]), now);
  }

  predicate NoStaleValue(trades: seq<TradePoint>, now: int) {
    forall i | 0 <= i < |trades| && trades[i].ts < now - DAY :: trades[i].val <= 0.0
  }

  lemma QueueCoversRecent(s: State, before: int, now: int)
    requires Window(s, before) && before <= now
    requires forall i | 0 <= i < |s.history| :: s.history[i].val >= 0.0
    ensures s.volume24h >= Sum(Recent(s.history, now))
    ensures s.volume24h == Sum(Recent(s.history, now)) <==> NoStaleValue(s.trades, now)
  {
    var h, k := s.history, Stale(s.history, now - DAY);
    RecentFromStale(h, now);
    assert k < |h| ==> h[k].ts >= now - DAY;
    assert forall i | k <= i < |h| :: h[i].ts >= now - DAY by { if k < |h| { OrderedFrom(h, k); } }
    assert s.evicted <= k;
    SumOfSuffixes(h, s.evicted, k);
    StaleAreFirst(h, s.evicted, k, now);
  }

  /** The stale trades of the queue are those before `k`. */
  lemma StaleAreFirst(h: seq<TradePoint>, from: nat, k: nat, now: int)
    requires from <= k <= |h|
    requires forall i | 0 <= i < k :: h[i].ts < now - DAY
    requires forall i | k <= i < |h| :: h[i].ts >= now - DAY
    ensures NoStaleValue(h[from..], now) <==> forall i | 0 <= i < |h[from..k]| :: h[from..k][i].val <= 0.0
  {
    var q := h[from..];
    assert forall i | 0 <= i < |q| :: q[i] == h[from + i];
    assert forall i | 0 <= i < k - from :: h[from..k][i] == q[i];
  }

  lemma OrderedFrom(h: seq<TradePoint>, k: nat)
    requires Ordered(h) && k < |h|
    ensures forall i | k <= i < |h| :: h[k].ts <= h[i].ts
  {}

  lemma RecentFromStale(h: seq<TradePoint>, now: int)
    requires Ordered(h)
    ensures Recent(h, now) == h[Stale(h, now - DAY)..]
  {
    var k := Stale(h, now - DAY);
    forall i | k <= i < |h| ensures h[i].ts >= now - DAY { assert h[k].ts <= h[i].ts; }
    RecentIsSuffix(h, k, now);
  }

  lemma SumOfSuffixes(h: seq<TradePoint>, from: nat, k: nat)
    requires from <= k <= |h| && forall i | 0 <= i < |h| :: h[i].val >= 0.0
    ensures Sum(h[from..]) >= Sum(h[k..])
    ensures Sum(h[from..]) == Sum(h[k..]) <==> forall i | 0 <= i < |h[from..k]| :: h[from..k][i].val <= 0.0
  {
    assert h[from..] == h[from..k] + h[k..];
    SumConcat(h[from..k], h[k..]);
    SumNonNegative(h[from..k]);
  }

  // ---- The engine ----

  datatype PriceUpdate = PriceUpdate(price: real, midPrice: real, spread: real, bestBid: real, bestAsk: real,
                                     lastTradePrice: real, volume24h: real)

  class MarketPriceState {
    var volume24h: real
    var lastTradePrice: real
    var bestBid: real
    var bestAsk: real
    var trades: seq<TradePoint>
    ghost var history: seq<TradePoint>
    ghost var evicted: nat

    constructor ()
      ensures View() == INIT
    {
      volume24h, lastTradePrice, bestBid, bestAsk, trades, history, evicted := 0.0, 0.0, 0.0, 0.0, [], [], 0;
    }

    ghost function View(): State
      reads this
    {
      State(volume24h, lastTradePrice, bestBid, bestAsk, trades, history, evicted)
    }

    /** Drops the trades older than `cutoff` from the front of the queue and from the running sum. */
    method Evict(cutoff: int)
      modifies this`trades, this`volume24h, this`evicted
      ensures var n := Stale(old(trades), cutoff);
        && trades == old(trades)[n..] && evicted == old(evicted) + n
        && volume24h == old(volume24h) - Sum(old(trades)[..n])
    {
      ghost var n := 0;
      while |trades| > 0 && trades[0].ts < cutoff
        invariant 0 <= n <= |old(trades)| && trades == old(trades)[n..] && evicted == old(evicted)
        invariant n + Stale(trades, cutoff) == Stale(old(trades), cutoff)
        invariant volume24h == old(volume24h) - Sum(old(trades)[..n])
        decreases |trades|
      {
        assert old(trades)[..n + 1] == old(trades)[..n] + [trades[0]];
        SumConcat(old(trades)[..n], [trades[0]]);
        volume24h := volume24h - trades[0].val;
        trades := trades[1..];
        n := n + 1;
      }
      evicted := evicted + n;
    }

    method OnTrade(price: real, size: real, now: int, later: int) returns (u: PriceUpdate)
      modifies this
      ensures View() == Next(old(View()), Trade(price, size, now, later))
      ensures u.volume24h == volume24h && u.bestBid == bestBid && u.bestAsk == bestAsk && u.lastTradePrice == price
      ensures bestBid > 0.0 && bestAsk > 0.0 ==>
        2.0 * u.midPrice == bestBid + bestAsk && u.price == u.midPrice && u.spread == bestAsk - bestBid
      ensures !(bestBid > 0.0 && bestAsk > 0.0) ==> u.price == u.midPrice == price && u.spread == 0.0
    {
      lastTradePrice := price;
      var notional := Notional(price, size);
      trades := trades + [TradePoint(now, notional)];
      history := history + [TradePoint(now, notional)];
      volume24h := volume24h + notional;
      Evict(later - DAY);
      u := PriceUpdate(price, price, 0.0, bestBid, bestAsk, price, volume24h);
      if bestBid > 0.0 && bestAsk > 0.0 {
        u := u.(midPrice := (bestBid + bestAsk) / 2.0, price := (bestBid + bestAsk) / 2.0, spread := bestAsk - bestBid);
      }
    }

    /** Publishes only for a two-sided book, and then the volume as the last trade left it. */
    method OnBook(bid: real, ask: real, now: int) returns (published: bool, u: PriceUpdate)
      modifies this`bestBid, this`bestAsk
      ensures View() == Next(old(View()), Book(bid, ask, now))
      ensures published == (bid > 0.0 && ask > 0.0)
      ensures published ==> u.volume24h == volume24h && u.lastTradePrice == lastTradePrice
      ensures published ==> u.bestBid == bid && u.bestAsk == ask && u.spread == ask - bid
      ensures published ==> 2.0 * u.midPrice == bid + ask && u.price == u.midPrice
    {
      published := bid > 0.0 && ask > 0.0;
      u := PriceUpdate(0.0, 0.0, 0.0, 0.0, 0.0, 0.0, 0.0);
      if published {
        bestBid, bestAsk := bid, ask;
        u := PriceUpdate((bid + ask) / 2.0, (bid + ask) / 2.0, ask - bid, bid, ask, lastTradePrice, volume24h);
      }
    }
  }
}
