/**
 The analyzer's moving average of a market's price.  It is stored as text with six decimals, so what is read
 back is the rounded value; a missing or expired key, and a stored zero, start it afresh.
 */
module Ema {
  import opened RealArithmetic

  const SCALE := 1_000_000.0
  const THRESHOLD := 0.05

  // ---- Rounding to six decimals ----

  /** The nearest integer, the even one in the middle. */
  function Nearest(x: real): int {
    var n := x.Floor;
    var rest := x - n as real;
    if rest < 0.5 || (rest == 0.5 && n % 2 == 0) then n else n + 1
  }

  /** The number that `%f` writes. */
  function Round(x: real): real { Nearest(x * SCALE) as real / SCALE }

  lemma NearestMonotone(x: real, y: real)
    requires x <= y
    ensures Nearest(x) <= Nearest(y)
  {}

  lemma RoundMonotone(x: real, y: real)
    requires x <= y
    ensures Round(x) <= Round(y)
  {
    NearestMonotone(x * SCALE, y * SCALE);
  }

  lemma RoundIdempotent(x: real)
    ensures Round(Round(x)) == Round(x)
  {
    var n := Nearest(x * SCALE);
    assert Round(x) * SCALE == n as real;
    assert (n as real).Floor == n;
  }

  /** Counted in millionths, the stored number is whole, none is nearer to the value written, and it is even at ties. */
  lemma RoundIsNearest(x: real, n: int)
    ensures var k, y := Nearest(x * SCALE), x * 1_000_000.0;
      && Round(x) * 1_000_000.0 == k as real && Abs(k as real - y) <= 0.5 && Abs(k as real - y) <= Abs(n as real - y)
      && (Abs(k as real - y) == 0.5 ==> k % 2 == 0)
  {
    NearestIsNearest(x * SCALE, n);
  }

  lemma NearestIsNearest(y: real, n: int)
    ensures Abs(Nearest(y) as real - y) <= 0.5 && Abs(Nearest(y) as real - y) <= Abs(n as real - y)
    ensures Abs(Nearest(y) as real - y) == 0.5 ==> Nearest(y) % 2 == 0
  {
    if n <= y.Floor { assert n as real <= y.Floor as real; } else { assert n as real >= y.Floor as real + 1.0; }
  }

  function Abs(x: real): real { if x < 0.0 then -x else x }

  // ---- The average ----

  /** The key expires, or a trade arrives. */
  datatype Event = Expire | Trade(price: real)

  datatype Stored = Missing | Value(ema: real)

  /** What a trade is compared with: the stored average, or the trade's own price if that is missing or zero. */
  function Previous(s: Stored, price: real): real { if s.Missing? || s.ema == 0.0 then price else s.ema }

  function Blend(price: real, previous: real): real { 0.2 * price + (1.0 - 0.2) * previous }

  function Next(s: Stored, e: Event): Stored {
    match e
    case Expire => Missing
    case Trade(price) => Value(Round(Blend(price, Previous(s, price))))
  }

  function Run(es: seq<Event>): Stored {
    if es == [] then Missing else Next(Run(es[..|es| - 1]), es[|es| - 1])
  }

  /** The prices seen since the key last expired. */
  function Prices(es: seq<Event>): seq<real> {
    if es == [] then []
    else match es[|es| - 1]
      case Expire => []
      case Trade(price) => Prices(es[..|es| - 1]) + [price]
  }

  /** A convex step, then rounding, stays between rounded bounds. */
  lemma StepStaysInside(previous: real, price: real, lo: real, hi: real)
    requires lo <= price <= hi
    requires Round(lo) <= previous <= Round(hi) || previous == price
    ensures Round(lo) <= Round(Blend(price, previous)) <= Round(hi)
  {
    var blend := Blend(price, previous);
    RoundIdempotent(lo);
    RoundIdempotent(hi);
    RoundMonotone(if lo <= Round(lo) then lo else Round(lo), blend);
    RoundMonotone(blend, if hi >= Round(hi) then hi else Round(hi));
  }

  /**
   The stored average lies between the six-decimal roundings of any lower and upper bound of the prices seen
   since the key last expired, in particular of the smallest and the largest.
   */
  lemma {:induction false} EmaStaysInside(es: seq<Event>, lo: real, hi: real)
    requires forall i | 0 <= i < |Prices(es)| :: lo <= Prices(es)[i] <= hi
    ensures Run(es).Missing? <==> Prices(es) == []
    ensures Run(es).Value? ==> Round(lo) <= Run(es).ema <= Round(hi)
  {
    if es != [] && es[|es| - 1].Trade? {
      var es', price := es[..|es| - 1], es[|es| - 1].price;
      var p := Prices(es);
      assert p[|p| - 1] == price;
      assert forall i | 0 <= i < |Prices(es')| :: Prices(es')[i] == p[i];
      EmaStaysInside(es', lo, hi);
      StepStaysInside(Previous(Run(es'), price), price, lo, hi);
    }
  }

  /** Against a stored average other than zero a trade weighs one fifth; otherwise the average starts at its price. */
  lemma TradeBlends(price: real, s: Stored)
    ensures s.Value? && s.ema != 0.0 ==> Next(s, Trade(price)) == Value(Round(0.2 * price + 0.8 * s.ema))
    ensures s.Missing? || s.ema == 0.0 ==> Next(s, Trade(price)) == Value(Round(price))
  {}

  // ---- The momentum signal ----

  /** Go's float division by a zero average is infinite, or not a number for a zero price. */
  predicate Fires(price: real, ema: real) {
    if ema == 0.0 then price != 0.0 else Abs((price - ema) / ema) > THRESHOLD
  }

  lemma Quotient(a: real, b: real, t: real)
    requires b > 0.0
    ensures a / b > t <==> a > t * b
    ensures a / b < t <==> a < t * b
  {
    var q := a / b;
    assert q * b == a;
    if q > t { ScaleStrictly(t, q, b); } else if q < t { ScaleStrictly(q, t, b); }
  }

  /**
   For positive prices the signal fires exactly when the price is above 84/79 or below 76/81 of the previous
   average; never on a first trade.
   */
  lemma FiresIff(es: seq<Event>, price: real)
    requires price > 0.0 && forall i | 0 <= i < |Prices(es)| :: Prices(es)[i] > 0.0
    ensures var previous := Previous(Run(es), price);
      && previous > 0.0
      && (Fires(price, Blend(price, previous)) <==> price > 84.0 / 79.0 * previous || price < 76.0 / 81.0 * previous)
      && (Run(es).Missing? ==> !Fires(price, Blend(price, previous)))
  {
    EmaNonNegative(es);
    var previous := Previous(Run(es), price);
    var ema := Blend(price, previous);
    Quotient(price - ema, ema, THRESHOLD);
    Quotient(price - ema, ema, -THRESHOLD);
  }

  /** A trade against what is stored. */
  lemma SignalIff(price: real, s: Stored)
    ensures var fires := Fires(price, Blend(price, Previous(s, price)));
      && (price > 0.0 && s.Value? && s.ema > 0.0 ==>
           (fires <==> price > 84.0 / 79.0 * s.ema || price < 76.0 / 81.0 * s.ema))
      && (s.Missing? || s.ema == 0.0 ==> !fires)
  {
    var ema := Blend(price, Previous(s, price));
    if price > 0.0 && s.Value? && s.ema > 0.0 {
      Quotient(price - ema, ema, THRESHOLD);
      Quotient(price - ema, ema, -THRESHOLD);
    }
  }

  lemma EmaNonNegative(es: seq<Event>)
    requires forall i | 0 <= i < |Prices(es)| :: Prices(es)[i] > 0.0
    ensures Run(es).Value? ==> Run(es).ema >= 0.0
  {
    var hi := Largest(Prices(es));
    EmaStaysInside(es, 0.0, hi);
    assert Round(0.0) == 0.0;
  }

  lemma Largest(p: seq<real>) returns (hi: real)
    ensures forall i | 0 <= i < |p| :: p[i] <= hi
  {
    hi := 0.0;
    for i := 0 to |p|
      invariant forall k | 0 <= k < i :: p[k] <= hi
    {
      if p[i] > hi { hi := p[i]; }
    }
  }

  // ---- The engine ----

  method Momentum(price: real, newEma: real) returns (signal: bool)
    ensures signal == Fires(price, newEma)
  {
    if newEma == 0.0 { return price != 0.0; }
    var momentum := (price - newEma) / newEma;
    signal := Abs(momentum) > THRESHOLD;
  }

  class Analyzer {
    var stored: Stored

    constructor ()
      ensures stored == Missing
    {
      stored := Missing;
    }

    /** One trade: read the stored text, blend, write it back with six decimals, signal a jump. */
    method OnTrade(price: real) returns (signal: bool)
      modifies this
      ensures stored == Next(old(stored), Trade(price))
      ensures signal == Fires(price, Blend(price, Previous(old(stored), price)))
      ensures old(stored).Value? && old(stored).ema != 0.0 ==>
        && stored == Value(Round(0.2 * price + 0.8 * old(stored).ema))
        && (price > 0.0 && old(stored).ema > 0.0 ==>
             (signal <==> price > 84.0 / 79.0 * old(stored).ema || price < 76.0 / 81.0 * old(stored).ema))
      ensures old(stored).Missing? || old(stored).ema == 0.0 ==> stored == Value(Round(price)) && !signal
    {
      ghost var s := stored;
      SignalIff(price, s);
      TradeBlends(price, s);
      var prevEma := if stored.Missing? then 0.0 else stored.ema;
      if prevEma == 0.0 { prevEma := price; }
      var alpha := 0.2;
      var newEma := alpha * price + (1.0 - alpha) * prevEma;
      assert newEma == Blend(price, Previous(s, price));
      stored := Value(Round(newEma));
      signal := Momentum(price, newEma);
    }
  }
}
