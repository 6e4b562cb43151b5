/**
 One market-and-token order book: snapshots and deltas applied to two price maps, and the ten best levels of
 each side published after every message.  Prices and sizes are text; `num` is the number a text is read as.
 */
module Orderbooks {
  import opened Options

  const DEPTH := 10

  type Price = string
  type Size = string
  type Side = map<Price, Size>

  /** An entry of a message's level list; entries that are no pair are skipped. */
  datatype Item = Level(price: Price, size: Size) | Malformed

  /** "book" and "snapshot" events reset the book first; a list of price changes never reaches it. */
  datatype Message =
    | Snapshot(bids: seq<Item>, asks: seq<Item>)
    | Delta(bids: seq<Item>, asks: seq<Item>)
    | PriceChanges

  datatype Book = Book(bids: Side, asks: Side)

  predicate Removes(size: Size) { size == "0" || size == "0.0" }

  function Apply(levels: Side, items: seq<Item>): Side {
    if items == [] then levels
    else
      var before := Apply(levels, items[..|items| - 1]);
      match items[|items| - 1]
      case Malformed => before
      case Level(price, size) => if Removes(size) then before - {price} else before[price := size]
  }

  function Next(b: Book, m: Message): Book {
    match m
    case Snapshot(bids, asks) => Book(Apply(map[], bids), Apply(map[], asks))
    case Delta(bids, asks) => Book(Apply(b.bids, bids), Apply(b.asks, asks))
    case PriceChanges => b
  }

  function Run(ms: seq<Message>): Book {
    if ms == [] then Book(map[], map[]) else Next(Run(ms[..|ms| - 1]), ms[|ms| - 1])
  }

  // ---- The book as a function of the messages ----

  function ItemsOf(m: Message, bid: bool): seq<Item> {
    if m.PriceChanges? then [] else if bid then m.bids else m.asks
  }

  /** Everything said about one side since the latest snapshot, which is included. */
  function Since(ms: seq<Message>, bid: bool): seq<Item> {
    if ms == [] then []
    else
      var m := ms[|ms| - 1];
      if m.Snapshot? then ItemsOf(m, bid) else Since(ms[..|ms| - 1], bid) + ItemsOf(m, bid)
  }

  /** The last size given for a price. */
  function LastSize(items: seq<Item>, price: Price): Option<Size> {
    if items == [] then None
    else match items[|items| - 1]
      case Level(p, size) => if p == price then Some(size) else LastSize(items[..|items| - 1], price)
      case Malformed => LastSize(items[..|items| - 1], price)
  }

  predicate Holds(side: Side, price: Price, last: Option<Size>) {
    if last.Some? && last.value != "0" && last.value != "0.0" then price in side && side[price] == last.value
    else price !in side
  }

  lemma {:induction false} ApplyToEmpty(items: seq<Item>, price: Price)
    ensures Holds(Apply(map[], items), price, LastSize(items, price))
  {
    if items != [] { ApplyToEmpty(items[..|items| - 1], price); }
  }

  lemma {:induction false} ApplyConcat(levels: Side, xs: seq<Item>, ys: seq<Item>)
    ensures Apply(levels, xs + ys) == Apply(Apply(levels, xs), ys)
  {
    if ys == [] {
      assert xs + ys == xs;
    } else {
      assert (xs + ys)[..|xs + ys| - 1] == xs + ys[..|ys| - 1];
      ApplyConcat(levels, xs, ys[..|ys| - 1]);
    }
  }

  lemma {:induction false} RunIsSince(ms: seq<Message>)
    ensures Run(ms) == Book(Apply(map[], Since(ms, true)), Apply(map[], Since(ms, false)))
  {
    if ms != [] {
      var ms', m := ms[..|ms| - 1], ms[|ms| - 1];
      RunIsSince(ms');
      if !m.Snapshot? {
        ApplyConcat(map[], Since(ms', true), ItemsOf(m, true));
        ApplyConcat(map[], Since(ms', false), ItemsOf(m, false));
      }
    }
  }

  /**
   After any run of messages, each side maps a price to the last size given for it since the latest snapshot,
   and does not have it if there was none or it was "0" or "0.0".
   */
  lemma BookHoldsLastSizes(ms: seq<Message>, price: Price)
    ensures Holds(Run(ms).bids, price, LastSize(Since(ms, true), price))
    ensures Holds(Run(ms).asks, price, LastSize(Since(ms, false), price))
  {
    RunIsSince(ms);
    ApplyToEmpty(Since(ms, true), price);
    ApplyToEmpty(Since(ms, false), price);
  }

  // ---- The best levels ----

  datatype PriceLevel = PriceLevel(price: Price, size: Size)

  /** Smaller is better: the negated price for bids, the price for asks. */
  function Rank(num: string -> real, desc: bool, price: Price): real { if desc then -num(price) else num(price) }

  predicate Ranked(num: string -> real, desc: bool, keys: seq<Price>) {
    forall i, j | 0 <= i < j < |keys| :: Rank(num, desc, keys[i]) <= Rank(num, desc, keys[j])
  }

  /** The `limit` best levels of a side, or all: no price twice, sizes from the book, best first, none passed over. */
  ghost predicate IsTop(levels: seq<PriceLevel>, side: Side, num: string -> real, desc: bool, limit: nat) {
    && |levels| == (if |side| < limit then |side| else limit)
    && (forall i | 0 <= i < |levels| :: levels[i].price in side && levels[i].size == side[levels[i].price])
    && (forall i, j | 0 <= i < j < |levels| ::
          levels[i].price != levels[j].price && Rank(num, desc, levels[i].price) <= Rank(num, desc, levels[j].price))
    && (forall p, i | p in side && 0 <= i < |levels| && (forall j | 0 <= j < |levels| :: levels[j].price != p) ::
          Rank(num, desc, levels[i].price) <= Rank(num, desc, p))
  }

  /** The first published level has the numerically best price of the whole side. */
  lemma FirstIsBest(levels: seq<PriceLevel>, side: Side, num: string -> real, desc: bool, limit: nat)
    requires IsTop(levels, side, num, desc, limit) && limit > 0 && side != map[]
    ensures levels != []
    ensures forall p | p in side :: if desc then num(p) <= num(levels[0].price) else num(levels[0].price) <= num(p)
  {
    assert side.Keys != {};
    forall p | p in side ensures Rank(num, desc, levels[0].price) <= Rank(num, desc, p) {
      if j :| 0 <= j < |levels| && levels[j].price == p {}
    }
  }

  lemma {:induction false} NoRepeats(s: seq<Price>, keys: set<Price>, i: nat, j: nat)
    requires multiset(s) == multiset(keys) && i < j < |s|
    ensures s[i] != s[j]
  {
    assert s == s[..j] + s[j..];
    assert s[i] in s[..j] && s[j] in s[j..];
    assert multiset(s[..j])[s[i]] >= 1 && multiset(s[j..])[s[j]] >= 1;
    assert multiset(s)[s[i]] == multiset(keys)[s[i]] <= 1;
  }

  /** Ranked but for position `j`, which may be better than its predecessors. */
  ghost predicate RankedBut(num: string -> real, desc: bool, keys: seq<Price>, j: nat) {
    forall a, b | 0 <= a < b < |keys| && b != j :: Rank(num, desc, keys[a]) <= Rank(num, desc, keys[b])
  }

  lemma SwapKeepsRanked(num: string -> real, desc: bool, keys: seq<Price>, j: nat)
    requires 0 < j < |keys| && RankedBut(num, desc, keys, j)
    requires Rank(num, desc, keys[j]) < Rank(num, desc, keys[j - 1])
    ensures RankedBut(num, desc, keys[j - 1 := keys[j]][j := keys[j - 1]], j - 1)
  {}

  method Swap(keys: array<Price>, j: nat)
    requires 0 < j < keys.Length
    modifies keys
    ensures keys[..] == old(keys[..][j - 1 := keys[j]][j := keys[j - 1]])
    ensures multiset(keys[..]) == multiset(old(keys[..]))
  {
    keys[j - 1], keys[j] := keys[j], keys[j - 1];
  }

  /** Moves the entry at `n` down to its place among the ranked entries before it. */
  method Insert(keys: array<Price>, n: nat, num: string -> real, desc: bool)
    requires n < keys.Length && Ranked(num, desc, keys[..n])
    modifies keys
    ensures multiset(keys[..]) == multiset(old(keys[..]))
    ensures Ranked(num, desc, keys[..n + 1])
  {
    var j := n;
    while j > 0 && Rank(num, desc, keys[j]) < Rank(num, desc, keys[j - 1])
      invariant 0 <= j <= n
      invariant multiset(keys[..]) == multiset(old(keys[..]))
      invariant RankedBut(num, desc, keys[..n + 1], j)
    {
      SwapKeepsRanked(num, desc, keys[..n + 1], j);
      ghost var before := keys[..];
      Swap(keys, j);
      assert keys[..n + 1] == before[..n + 1][j - 1 := before[j]][j := before[j - 1]];
      j := j - 1;
    }
  }

  /** Sorting in place; the order among ties is not fixed by the source. */
  method SortKeys(keys: array<Price>, num: string -> real, desc: bool)
    modifies keys
    ensures multiset(keys[..]) == multiset(old(keys[..]))
    ensures Ranked(num, desc, keys[..])
  {
    for n := 0 to keys.Length
      invariant multiset(keys[..]) == multiset(old(keys[..]))
      invariant Ranked(num, desc, keys[..n])
    {
      Insert(keys, n, num, desc);
    }
    assert keys[..keys.Length] == keys[..];
  }

  /** The keys of a side, in whatever order the map yields them. */
  method CollectKeys(side: Side) returns (keys: seq<Price>)
    ensures multiset(keys) == multiset(side.Keys)
  {
    keys := [];
    var todo := side.Keys;
    while todo != {}
      invariant todo <= side.Keys
      invariant multiset(keys) == multiset(side.Keys - todo)
    {
      var k :| k in todo;
      assert side.Keys - (todo - {k}) == (side.Keys - todo) + {k};
      keys, todo := keys + [k], todo - {k};
    }
    assert side.Keys - todo == side.Keys;
  }

  method GetTopLevels(side: Side, num: string -> real, desc: bool, limit: nat) returns (levels: seq<PriceLevel>)
    ensures IsTop(levels, side, num, desc, limit)
  {
    var collected := CollectKeys(side);
    var keys := new Price[|collected|](i requires 0 <= i < |collected| => collected[i]);
    assert keys[..] == collected;
    SortKeys(keys, num, desc);
    levels := Take(keys[..], side, limit);
    TakeIsTop(levels, keys[..], side, num, desc, limit);
  }

  /** The first `limit` keys with their sizes. */
  method Take(ordered: seq<Price>, side: Side, limit: nat) returns (levels: seq<PriceLevel>)
    requires multiset(ordered) == multiset(side.Keys)
    ensures AreFirst(levels, ordered, side, limit)
  {
    forall k ensures k in ordered <==> k in side { assert k in multiset(ordered) <==> k in multiset(side.Keys); }
    var count := if |ordered| > limit then limit else |ordered|;
    levels := [];
    for i := 0 to count
      invariant |levels| == i
      invariant forall k | 0 <= k < i :: ordered[k] in side && levels[k] == PriceLevel(ordered[k], side[ordered[k]])
    {
      assert ordered[i] in side;
      levels := levels + [PriceLevel(ordered[i], side[ordered[i]])];
    }
  }

  predicate AreFirst(levels: seq<PriceLevel>, ordered: seq<Price>, side: Side, limit: nat) {
    && |levels| == (if |ordered| > limit then limit else |ordered|)
    && forall k | 0 <= k < |levels| :: ordered[k] in side && levels[k] == PriceLevel(ordered[k], side[ordered[k]])
  }

  lemma TakeIsTop(levels: seq<PriceLevel>, ordered: seq<Price>, side: Side, num: string -> real, desc: bool, limit: nat)
    requires multiset(ordered) == multiset(side.Keys) && Ranked(num, desc, ordered)
    requires AreFirst(levels, ordered, side, limit)
    ensures IsTop(levels, side, num, desc, limit)
  {
    assert |ordered| == |multiset(ordered)| == |multiset(side.Keys)| == |side|;
    forall i, j | 0 <= i < j < |levels| ensures levels[i].price != levels[j].price {
      NoRepeats(ordered, side.Keys, i, j);
    }
    forall p, i | p in side && 0 <= i < |levels| && (forall j | 0 <= j < |levels| :: levels[j].price != p)
      ensures Rank(num, desc, levels[i].price) <= Rank(num, desc, p)
    {
      assert p in multiset(ordered);
      var j :| 0 <= j < |ordered| && ordered[j] == p;
      assert j >= |levels|;
    }
  }

  // ---- The engine ----

  datatype Update = Update(bids: seq<PriceLevel>, asks: seq<PriceLevel>, bestBid: Price, bestAsk: Price)

  method ApplyLevels(levels: Side, items: seq<Item>) returns (r: Side)
    ensures r == Apply(levels, items)
  {
    r := levels;
    for i := 0 to |items|
      invariant r == Apply(levels, items[..i])
    {
      assert items[..i + 1][..i] == items[..i];
      match items[i]
      case Malformed =>
      case Level(price, size) =>
        if size == "0" || size == "0.0" { r := r - {price}; } else { r := r[price := size]; }
    }
    assert items[..|items|] == items;
  }

  class Orderbook {
    const num: string -> real
    var bids: Side
    var asks: Side

    constructor (num: string -> real)
      ensures this.num == num && View() == Run([])
    {
      this.num, bids, asks := num, map[], map[];
    }

    ghost function View(): Book
      reads this
    {
      Book(bids, asks)
    }

    /** A book or delta message: update both sides, publish the top of each. */
    method Handle(m: Message) returns (u: Update)
      requires !m.PriceChanges?
      modifies this
      ensures View() == Next(old(View()), m)
      ensures IsTop(u.bids, bids, num, true, DEPTH) && IsTop(u.asks, asks, num, false, DEPTH)
      ensures u.bestBid == if u.bids == [] then "" else u.bids[0].price
      ensures u.bestAsk == if u.asks == [] then "" else u.asks[0].price
    {
      if m.Snapshot? { bids, asks := map[], map[]; }
      bids := ApplyLevels(bids, m.bids);
      asks := ApplyLevels(asks, m.asks);
      var topBids := GetTopLevels(bids, num, true, DEPTH);
      var topAsks := GetTopLevels(asks, num, false, DEPTH);
      u := Update(topBids, topAsks, "", "");
      if |u.bids| > 0 { u := u.(bestBid := u.bids[0].price); }
      if |u.asks| > 0 { u := u.(bestAsk := u.asks[0].price); }
    }

    /** Any run of messages on a new book; the last update shows the best of the sides the messages define. */
    method HandleAll(ms: seq<Message>) returns (last: Update)
      requires View() == Run([]) && ms != [] && !ms[|ms| - 1].PriceChanges?
      modifies this
      ensures View() == Run(ms)
      ensures IsTop(last.bids, Run(ms).bids, num, true, DEPTH) && IsTop(last.asks, Run(ms).asks, num, false, DEPTH)
    {
      last := Update([], [], "", "");
      for i := 0 to |ms|
        invariant View() == Run(ms[..i])
        invariant i > 0 && !ms[i - 1].PriceChanges? ==>
          IsTop(last.bids, bids, num, true, DEPTH) && IsTop(last.asks, asks, num, false, DEPTH)
      {
        assert ms[..i + 1][..i] == ms[..i];
        if !ms[i].PriceChanges? { last := Handle(ms[i]); }
      }
      assert ms[..|ms|] == ms;
    }
  }
}
