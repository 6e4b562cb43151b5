/**
 The polling half of an indexer cycle: a block cursor that advances in chunks, with separate counters for
 header and log errors.  Block numbers are unsigned 64-bit words.
 */
module BlockPolling {

  const WORD := 0x1_0000_0000_0000_0000
  const MAX_CONSECUTIVE_ERRORS := 3
  const CHUNK := 41   // to - from is at most 40

  type Block = b: nat | b < WORD

  /** A successful log request: the blocks asked for, and the chain head at that moment. */
  datatype Fetch = Fetch(from: Block, to: Block, head: Block)

  /**
   One firing of the ticker: the header request fails, or yields a head, and the log request, if one is made, ends
   in `ok`.
   */
  datatype Tick = HeaderError | Head(block: Block, ok: bool)

  datatype State = State(lastBlock: Block, headerErrors: nat, logErrors: nat, fetched: seq<Fetch>, failed: bool)

  const INIT := State(0, 0, 0, [], false)

  /** The cursor a tick starts from: the first head puts it five blocks back. */
  function Cursor(s: State, head: Block): Block {
    if s.lastBlock == 0 then (head + WORD - 5) % WORD else s.lastBlock
  }

  function UpTo(from: Block, head: Block): Block
    requires from <= head
  {
    if head - from > 40 then from + 40 else head
  }

  function Next(s: State, e: Tick): State {
    if s.failed then s
    else match e
      case HeaderError =>
        s.(headerErrors := s.headerErrors + 1, failed := s.headerErrors + 1 >= MAX_CONSECUTIVE_ERRORS)
      case Head(block, ok) =>
        var last := Cursor(s, block);
        if block <= last then s.(headerErrors := 0, lastBlock := last)
        else if !ok then
          s.(headerErrors := 0, lastBlock := last, logErrors := s.logErrors + 1,
             failed := s.logErrors + 1 >= MAX_CONSECUTIVE_ERRORS)
        else
          var to := UpTo(last + 1, block);
          State(to, 0, 0, s.fetched + [Fetch(last + 1, to, block)], false)
  }

  function RunFrom(s: State, es: seq<Tick>): State {
    if es == [] then s else Next(RunFrom(s, es[..|es| - 1]), es[|es| - 1])
  }

  function Run(es: seq<Tick>): State { RunFrom(INIT, es) }

  // ---- What is fetched ----

  function MaxHead(es: seq<Tick>): Block {
    if es == [] then 0
    else
      var m := MaxHead(es[..|es| - 1]);
      match es[|es| - 1]
      case HeaderError => m
      case Head(block, _) => if block > m then block else m
  }

  /** The ranges follow one another without gap or overlap, from `start + 1` to `last`, 41 blocks at most each. */
  predicate Contiguous(fetched: seq<Fetch>, start: int, last: int) {
    && (fetched == [] ==> last == start)
    && (fetched != [] ==> fetched[0].from == start + 1 && fetched[|fetched| - 1].to == last)
    && (forall i | 0 <= i < |fetched| ::
         fetched[i].from <= fetched[i].to <= fetched[i].head && fetched[i].to - fetched[i].from <= 40)
    && (forall i | 0 < i < |fetched| :: fetched[i].from == fetched[i - 1].to + 1)
  }

  /** Step `r` is the first to see a head, before the header errors have ended the cycle. */
  predicate FirstHeadAt(es: seq<Tick>, r: nat) {
    && r < |es| && r < MAX_CONSECUTIVE_ERRORS
    && (forall i | 0 <= i < r :: es[i].HeaderError?)
    && es[r].Head?
  }

  /** The first head puts the cursor at a block above zero, or is 5 and its request succeeds. */
  predicate Starts(h: Block, ok: bool) { h > 5 || (h == 5 && ok) }

  /** A cycle that starts properly at step `r`. */
  predicate GoodStart(es: seq<Tick>, r: nat) { FirstHeadAt(es, r) && Starts(es[r].block, es[r].ok) }

  /**
   The ranges are contiguous, in order and disjoint from block `start` up to the cursor, and never beyond the
   highest head seen.
   */
  predicate Covers(es: seq<Tick>, start: int) {
    var s := Run(es);
    && s.lastBlock <= MaxHead(es)
    && Contiguous(s.fetched, start, s.lastBlock)
    && forall f | f in s.fetched :: f.head <= MaxHead(es)
  }

  lemma {:induction false} OnlyHeaderErrors(es: seq<Tick>)
    requires |es| < MAX_CONSECUTIVE_ERRORS && forall e | e in es :: e.HeaderError?
    ensures Run(es) == INIT.(headerErrors := |es|)
  {
    if es != [] { OnlyHeaderErrors(es[..|es| - 1]); }
  }

  /** Within a properly started cycle, under any pattern of errors and heads that move either way. */
  lemma {:induction false} CoversContiguously(es: seq<Tick>, r: nat)
    requires GoodStart(es, r)
    ensures Covers(es, es[r].block - 5) && Run(es).lastBlock > 0
  {
    if |es| == r + 1 {
      FirstHeadStarts(es, r);
    } else {
      assert forall i | 0 <= i < |es| - 1 :: es[..|es| - 1][i] == es[i];
      CoversContiguously(es[..|es| - 1], r);
      StepCovers(es, es[r].block - 5);
    }
  }

  lemma StepCovers(es: seq<Tick>, start: int)
    requires es != [] && Covers(es[..|es| - 1], start) && Run(es[..|es| - 1]).lastBlock > 0
    ensures Covers(es, start) && Run(es).lastBlock > 0
  {
    var s, t := Run(es[..|es| - 1]), Run(es);
    StepExtends(s, es[|es| - 1], start);
    MaxHeadGrows(es);
    forall f | f in t.fetched ensures f.head <= MaxHead(es) {
      if f !in s.fetched { assert f == t.fetched[|s.fetched|]; }
    }
  }

  lemma MaxHeadGrows(es: seq<Tick>)
    requires es != []
    ensures MaxHead(es[..|es| - 1]) <= MaxHead(es)
    ensures es[|es| - 1].Head? ==> es[|es| - 1].block <= MaxHead(es)
  {}

  lemma FirstHeadStarts(es: seq<Tick>, r: nat)
    requires GoodStart(es, r) && |es| == r + 1
    ensures Covers(es, es[r].block - 5) && Run(es).lastBlock > 0
  {
    OnlyHeaderErrors(es[..r]);
    assert Cursor(INIT, es[r].block) == es[r].block - 5;
  }

  /** Every continuation of a cycle whose step `r` is the first to see a head, `h`, is covered. */
  ghost predicate AlwaysCovers(r: nat, h: Block, ok: bool) {
    forall es | FirstHeadAt(es, r) && es[r] == Head(h, ok) :: Covers(es, h - 5)
  }

  /**
   Whatever happens afterwards, the ranges cover the blocks from five below the first head on, exactly when that
   head is above 5, or is 5 and the log request made for it succeeds.
   */
  lemma CoversIff(r: nat, h: Block, ok: bool)
    requires r < MAX_CONSECUTIVE_ERRORS
    ensures AlwaysCovers(r, h, ok) <==> Starts(h, ok)
  {
    if Starts(h, ok) {
      forall es | FirstHeadAt(es, r) && es[r] == Head(h, ok) ensures Covers(es, h - 5) { CoversContiguously(es, r); }
    } else {
      var errors := seq(r, (i: nat) => HeaderError);
      if h == 5 { var es := FailingFive(errors); } else { var es := FailingEarly(errors, h, ok); }
    }
  }

  lemma FailingFive(errors: seq<Tick>) returns (es: seq<Tick>)
    requires |errors| < MAX_CONSECUTIVE_ERRORS && forall e | e in errors :: e.HeaderError?
    ensures FirstHeadAt(es, |errors|) && es[|errors|] == Head(5, false) && !Covers(es, 0)
  {
    FiveSkips(errors);
    es := errors + [Head(5, false), Head(100, true)];
  }

  lemma FailingEarly(errors: seq<Tick>, h: Block, ok: bool) returns (es: seq<Tick>)
    requires |errors| < MAX_CONSECUTIVE_ERRORS && (forall e | e in errors :: e.HeaderError?) && h < 5
    ensures FirstHeadAt(es, |errors|) && es[|errors|] == Head(h, ok) && !Covers(es, h - 5)
  {
    es := errors + [Head(h, ok)];
    assert es[..|es| - 1] == errors;
    OnlyHeaderErrors(errors);
    assert Run(es) == Next(Run(errors), Head(h, ok));
  }

  /** A head of 5 whose log request fails leaves the cursor at 0, so the next head starts the cycle anew. */
  lemma FiveStartsAnew(errors: seq<Tick>, h: Block, ok: bool)
    requires |errors| < MAX_CONSECUTIVE_ERRORS && forall e | e in errors :: e.HeaderError?
    ensures var s := Run(errors + [Head(5, false), Head(h, ok)]);
      s.lastBlock == Next(INIT, Head(h, ok)).lastBlock && s.fetched == Next(INIT, Head(h, ok)).fetched
  {
    var both := errors + [Head(5, false), Head(h, ok)];
    var first := both[..|both| - 1];
    assert first[..|first| - 1] == errors && first[|first| - 1] == Head(5, false);
    OnlyHeaderErrors(errors);
    assert Run(first) == INIT.(logErrors := 1);
  }

  /** The blocks between the two starts are then never asked for: after a head of 100, nothing below 96 is. */
  lemma FiveSkips(errors: seq<Tick>)
    requires |errors| < MAX_CONSECUTIVE_ERRORS && forall e | e in errors :: e.HeaderError?
    ensures var fetched := Run(errors + [Head(5, false), Head(100, true)]).fetched;
      fetched == [Fetch(96, 100, 100)] && !Contiguous(fetched, 0, 100)
  {
    FiveStartsAnew(errors, 100, true);
  }

  lemma StepExtends(s: State, e: Tick, start: int)
    requires s.lastBlock > 0 && Contiguous(s.fetched, start, s.lastBlock)
    ensures var t := Next(s, e);
      && Contiguous(t.fetched, start, t.lastBlock)
      && s.lastBlock <= t.lastBlock
      && ((t.fetched == s.fetched && t.lastBlock == s.lastBlock)
          || (e.Head? && t.lastBlock <= e.block
              && t.fetched == s.fetched + [Fetch(s.lastBlock + 1, t.lastBlock, e.block)]))
  {}

  /** A block is fetched by exactly one range if it lies above the start and up to the cursor, by none otherwise. */
  lemma BlocksFetchedOnce(es: seq<Tick>, r: nat, b: nat)
    requires GoodStart(es, r)
    ensures var s := Run(es);
      && (es[r].block - 5 < b <= s.lastBlock <==>
           exists i :: 0 <= i < |s.fetched| && s.fetched[i].from <= b <= s.fetched[i].to)
      && forall i, j | 0 <= i < j < |s.fetched| :: s.fetched[i].to < s.fetched[j].from
  {
    CoversContiguously(es, r);
    var f, start, last := Run(es).fetched, es[r].block - 5, Run(es).lastBlock;
    forall i, j | 0 <= i < j < |f| ensures f[i].to < f[j].from { InOrder(f, start, last, i, j); }
    if start < b <= last { var i := RangeOf(f, start, last, b); }
  }

  lemma {:induction false} InOrder(fetched: seq<Fetch>, start: nat, last: nat, i: nat, j: nat)
    requires Contiguous(fetched, start, last) && i < j < |fetched|
    ensures fetched[i].to < fetched[j].from
    decreases j
  {
    if i < j - 1 { InOrder(fetched, start, last, i, j - 1); }
  }

  lemma RangeOf(fetched: seq<Fetch>, start: nat, last: nat, b: nat) returns (i: nat)
    requires Contiguous(fetched, start, last) && start < b <= last
    ensures i < |fetched| && fetched[i].from <= b <= fetched[i].to
  {
    i := 0;
    while b > fetched[i].to
      invariant i < |fetched| && fetched[i].from <= b
      decreases |fetched| - i
    {
      i := i + 1;
    }
  }

  // ---- Cycle after cycle ----

  /** A cycle that starts properly at its tick `r`.  The cursor is the cycle's own. */
  datatype Cycle = Cycle(ticks: seq<Tick>, r: nat)

  predicate Starting(c: Cycle) { GoodStart(c.ticks, c.r) }

  function StartOf(c: Cycle): nat
    requires Starting(c)
  {
    c.ticks[c.r].block - 5
  }

  function LastOf(c: Cycle): nat { Run(c.ticks).lastBlock }

  predicate Fetches(c: Cycle, b: nat) {
    var f := Run(c.ticks).fetched; exists i :: 0 <= i < |f| && f[i].from <= b <= f[i].to
  }

  lemma CycleFetches(c: Cycle)
    requires Starting(c)
    ensures StartOf(c) <= LastOf(c)
    ensures forall b: nat :: Fetches(c, b) <==> StartOf(c) < b <= LastOf(c)
  {
    CoversContiguously(c.ticks, c.r);
    EndsAbove(Run(c.ticks).fetched, StartOf(c), LastOf(c));
    forall b: nat ensures Fetches(c, b) <==> StartOf(c) < b <= LastOf(c) { BlocksFetchedOnce(c.ticks, c.r, b); }
  }

  lemma EndsAbove(fetched: seq<Fetch>, start: nat, last: nat)
    requires Contiguous(fetched, start, last)
    ensures start <= last
  {
    if |fetched| > 1 { InOrder(fetched, start, last, 0, |fetched| - 1); }
  }

  /** The blocks above `start` up to `last`. */
  datatype Span = Span(start: nat, last: nat)

  predicate In(span: Span, b: nat) { span.start < b <= span.last }

  predicate Ascending(spans: seq<Span>) {
    && (forall k | 0 <= k < |spans| :: spans[k].start <= spans[k].last)
    && (forall j, k | 0 <= j < k < |spans| :: spans[j].start <= spans[k].start)
  }

  predicate InSome(spans: seq<Span>, b: nat) { exists k :: 0 <= k < |spans| && In(spans[k], b) }

  /** The highest block any of the spans reaches. */
  function Reached(spans: seq<Span>): nat {
    if spans == [] then 0
    else
      var before, last := Reached(spans[..|spans| - 1]), spans[|spans| - 1].last;
      if last > before then last else before
  }

  lemma {:induction false} ReachedIsHighest(spans: seq<Span>)
    ensures forall k | 0 <= k < |spans| :: spans[k].last <= Reached(spans)
    ensures spans != [] ==> exists k :: 0 <= k < |spans| && spans[k].last == Reached(spans)
  {
    if spans != [] {
      var n := |spans| - 1;
      ReachedIsHighest(spans[..n]);
      forall k | 0 <= k < n ensures spans[k].last <= Reached(spans) { assert spans[..n][k] == spans[k]; }
      if n > 0 {
        var k :| 0 <= k < n && spans[..n][k].last == Reached(spans[..n]);
        assert spans[k].last == Reached(spans[..n]);
      }
      assert spans[n].last <= Reached(spans);
    }
  }

  lemma ReachedBefore(spans: seq<Span>, j: nat, k: nat)
    requires j < k <= |spans|
    ensures spans[j].last <= Reached(spans[..k])
  {
    ReachedIsHighest(spans[..k]);
    assert spans[..k][j] == spans[j];
  }

  /** No span starts beyond what those before it reach. */
  predicate NoneStartsBeyond(spans: seq<Span>) {
    forall k | 0 < k < |spans| :: spans[k].start <= Reached(spans[..k])
  }

  lemma {:induction false} NothingSkipped(spans: seq<Span>, b: nat)
    requires Ascending(spans) && spans != [] && NoneStartsBeyond(spans) && spans[0].start < b <= Reached(spans)
    ensures InSome(spans, b)
  {
    var n := |spans| - 1;
    if n > 0 && b <= Reached(spans[..n]) {
      assert forall k | 0 <= k < n :: spans[..n][..k] == spans[..k];
      NothingSkipped(spans[..n], b);
      var k :| 0 <= k < n && In(spans[..n][k], b);
      assert In(spans[k], b);
    } else {
      assert In(spans[n], b);
    }
  }

  lemma SomethingSkipped(spans: seq<Span>, k: nat)
    requires Ascending(spans) && 0 < k < |spans| && spans[k].start > Reached(spans[..k])
    ensures var b := Reached(spans[..k]) + 1; spans[0].start < b <= Reached(spans) && !InSome(spans, b)
  {
    var b := Reached(spans[..k]) + 1;
    ReachedIsHighest(spans);
    forall j | 0 <= j < k ensures spans[j].last < b { ReachedBefore(spans, j, k); }
    assert spans[0].start <= spans[0].last < b <= spans[k].start <= spans[k].last;
  }

  lemma SkippedIff(spans: seq<Span>)
    requires Ascending(spans) && spans != []
    ensures (forall b: nat | spans[0].start < b <= Reached(spans) :: InSome(spans, b)) <==> NoneStartsBeyond(spans)
  {
    if NoneStartsBeyond(spans) {
      forall b: nat | spans[0].start < b <= Reached(spans) ensures InSome(spans, b) { NothingSkipped(spans, b); }
    } else {
      var k :| 0 < k < |spans| && spans[k].start > Reached(spans[..k]);
      SomethingSkipped(spans, k);
    }
  }

  predicate NoneTwice(spans: seq<Span>) {
    forall j, k | 0 <= j < k < |spans| :: Apart(spans[j], spans[k])
  }

  predicate Apart(a: Span, b: Span) {
    a.last <= b.start || b.last <= a.start || a.start >= a.last || b.start >= b.last
  }

  lemma ApartIff(a: Span, b: Span)
    ensures Apart(a, b) <==> forall block: nat :: !(In(a, block) && In(b, block))
  {
    if !Apart(a, b) {
      var block := (if a.start > b.start then a.start else b.start) + 1;
      assert In(a, block) && In(b, block);
    }
  }

  /** Each nonempty span starts where those before it had ended, or above. */
  predicate StartsAbove(spans: seq<Span>) {
    forall k | 0 < k < |spans| && spans[k].start < spans[k].last :: spans[k].start >= Reached(spans[..k])
  }

  lemma TwiceIff(spans: seq<Span>)
    requires Ascending(spans)
    ensures NoneTwice(spans) <==> StartsAbove(spans)
  {
    forall j, k | 0 <= j < k < |spans| ensures spans[j].last <= Reached(spans[..k]) { ReachedBefore(spans, j, k); }
    forall k | NoneTwice(spans) && 0 < k < |spans| && spans[k].start < spans[k].last
      ensures spans[k].start >= Reached(spans[..k])
    {
      ReachedIsHighest(spans[..k]);
      var j :| 0 <= j < k && spans[..k][j].last == Reached(spans[..k]);
      assert Apart(spans[j], spans[k]);
    }
  }

  /** What the cycles of the outer loop ask for. */
  function SpansOf(cs: seq<Cycle>): (spans: seq<Span>)
    requires forall k | 0 <= k < |cs| :: Starting(cs[k])
    ensures |spans| == |cs|
  {
    seq(|cs|, k requires 0 <= k < |cs| => Span(StartOf(cs[k]), LastOf(cs[k])))
  }

  /**
   Over the outer loop, with starts that do not move back: no block is skipped between the first start and the
   highest cursor exactly if every cycle starts at or below what the cycles before it reached, and none is fetched
   by two cycles exactly if each that fetches anything starts at or above that.
   */
  lemma CyclesIff(cs: seq<Cycle>)
    requires cs != [] && (forall k | 0 <= k < |cs| :: Starting(cs[k])) && Ascending(SpansOf(cs))
    ensures (forall b: nat | StartOf(cs[0]) < b <= Reached(SpansOf(cs)) :: FetchedBySome(cs, b))
       <==> NoneStartsBeyond(SpansOf(cs))
    ensures (forall j, k | 0 <= j < k < |cs| :: Disjoint(cs[j], cs[k])) <==> StartsAbove(SpansOf(cs))
  {
    var spans := SpansOf(cs);
    forall k | 0 <= k < |cs| ensures forall b: nat :: Fetches(cs[k], b) <==> In(spans[k], b) { CycleFetches(cs[k]); }
    forall b: nat ensures FetchedBySome(cs, b) <==> InSome(spans, b) { SomeSpan(cs, spans, b); }
    SkippedIff(spans);
    TwiceIff(spans);
    forall j, k | 0 <= j < k < |cs| ensures Disjoint(cs[j], cs[k]) <==> Apart(spans[j], spans[k]) {
      ApartIff(spans[j], spans[k]);
    }
  }

  predicate FetchedBySome(cs: seq<Cycle>, b: nat) { exists k :: 0 <= k < |cs| && Fetches(cs[k], b) }

  ghost predicate Disjoint(c: Cycle, d: Cycle) { forall b: nat :: !(Fetches(c, b) && Fetches(d, b)) }

  lemma SomeSpan(cs: seq<Cycle>, spans: seq<Span>, b: nat)
    requires |spans| == |cs| && forall k | 0 <= k < |cs| :: Fetches(cs[k], b) <==> In(spans[k], b)
    ensures FetchedBySome(cs, b) <==> InSome(spans, b)
  {
    if k :| 0 <= k < |cs| && In(spans[k], b) { assert Fetches(cs[k], b); }
    if k :| 0 <= k < |cs| && Fetches(cs[k], b) { assert In(spans[k], b); }
  }

  // ---- Progress ----

  function Min(a: int, b: int): int { if a < b then a else b }

  /** The ticks that find the endpoint healthy: a head, and success for the log request if one is made. */
  function HealthyTicks(es: seq<Tick>): nat {
    if es == [] then 0
    else HealthyTicks(es[..|es| - 1]) + match es[|es| - 1] case HeaderError => 0 case Head(_, ok) => if ok then 1 else 0
  }

  /**
   With the head fixed at `h`, every healthy tick brings the cursor 41 blocks closer until it reaches `h`, each by
   one request, and none is made after that: exactly ceil((h - lastBlock) / 41) healthy ticks bring it there.
   */
  lemma {:induction false} CatchesUp(s: State, es: seq<Tick>, h: Block)
    requires 0 < s.lastBlock <= h && forall e | e in es && e.Head? :: e.block == h
    ensures var t, distance := RunFrom(s, es), h - s.lastBlock;
      var successes, needed := |t.fetched| - |s.fetched|, (distance + CHUNK - 1) / CHUNK;
      && 0 <= successes <= needed
      && t.lastBlock == Min(h, s.lastBlock + CHUNK * successes)
      && (t.lastBlock == h <==> successes == needed)
    ensures var t, k := RunFrom(s, es), HealthyTicks(es);
      !t.failed ==>
        && t.lastBlock == Min(h, s.lastBlock + CHUNK * k)
        && |t.fetched| - |s.fetched| == Min(k, (h - s.lastBlock + CHUNK - 1) / CHUNK)
        && (t.lastBlock == h <==> k >= (h - s.lastBlock + CHUNK - 1) / CHUNK)
  {
    if es != [] {
      CatchesUp(s, es[..|es| - 1], h);
      assert es[|es| - 1] in es;
      if !RunFrom(s, es[..|es| - 1]).failed { CatchUpStep(RunFrom(s, es[..|es| - 1]), es[|es| - 1], h); }
    }
  }

  lemma CatchUpStep(s: State, e: Tick, h: Block)
    requires 0 < s.lastBlock <= h && (e.Head? ==> e.block == h) && !s.failed
    ensures var t := Next(s, e);
      if e.Head? && e.ok && s.lastBlock < h
      then t.lastBlock == Min(h, s.lastBlock + CHUNK) && |t.fetched| == |s.fetched| + 1 && !t.failed
      else t.lastBlock == s.lastBlock && t.fetched == s.fetched
  {}

  /** The successful log requests of a run. */
  function Successes(es: seq<Tick>): nat {
    if es == [] then 0
    else
      var n := |es| - 1;
      Successes(es[..n]) + if Requests(es, n) && es[n].ok then 1 else 0
  }

  /** Every successful log request of an unfailed cycle adds its range, and nothing else does. */
  lemma {:induction false} EverySuccessCounts(es: seq<Tick>)
    requires !Run(es).failed
    ensures |Run(es).fetched| == Successes(es)
  {
    if es != [] {
      assert es[..|es| - 1 + 1] == es;
      EverySuccessCounts(es[..|es| - 1]);
    }
  }

  /** How far behind the head a successful request leaves the cursor. */
  function Lag(f: Fetch): int { f.head - f.to }

  /** Each request takes all blocks up to the head, or a full chunk. */
  lemma {:induction false} RequestsAreMaximal(es: seq<Tick>)
    ensures var f := Run(es).fetched; forall i | 0 <= i < |f| :: f[i].to == Min(f[i].head, f[i].from + 40)
  {
    if es != [] { RequestsAreMaximal(es[..|es| - 1]); }
  }

  /** If the head advances by at most 41 blocks from one successful request to the next, the lag never grows. */
  lemma {:induction false} LagNeverGrows(es: seq<Tick>, r: nat, i: nat, j: nat)
    requires GoodStart(es, r) && i <= j < |Run(es).fetched|
    requires var f := Run(es).fetched; forall k | i <= k < j :: f[k + 1].head <= f[k].head + CHUNK
    ensures Lag(Run(es).fetched[j]) <= Lag(Run(es).fetched[i])
    decreases j - i
  {
    if i < j {
      CoversContiguously(es, r);
      RequestsAreMaximal(es);
      LagNeverGrows(es, r, i, j - 1);
      var f := Run(es).fetched;
      assert f[j].from == f[j - 1].to + 1 && f[j - 1].to <= f[j - 1].head;
    }
  }

  // ---- When polling gives up ----

  /** Tick `i` makes a log request. */
  predicate Requests(es: seq<Tick>, i: nat)
    requires i < |es|
  {
    es[i].Head? && es[i].block > Cursor(Run(es[..i]), es[i].block)
  }

  /** The failed log requests made by ticks from `i` on. */
  function LogFailures(es: seq<Tick>, i: nat): nat {
    if |es| <= i then 0
    else
      var n := |es| - 1;
      LogFailures(es[..n], i) + if Requests(es, n) && !es[n].ok then 1 else 0
  }

  predicate NoLogSuccess(es: seq<Tick>, i: nat) {
    forall k | i <= k < |es| && Requests(es, k) :: !es[k].ok
  }

  /** The run ends with three header errors in a row, or with a third log failure and no success in between. */
  predicate ThirdStrike(es: seq<Tick>) {
    || (|es| >= 3 && forall k | |es| - 3 <= k < |es| :: es[k].HeaderError?)
    || (exists i | 0 <= i < |es| :: LogFailures(es, i) == 3 && NoLogSuccess(es, i))
  }

  /** The counters mean what their names say, as long as the cycle goes on. */
  ghost predicate CountersCount(es: seq<Tick>) {
    var s := Run(es);
    && s.headerErrors <= |es|
    && (forall k | |es| - s.headerErrors <= k < |es| :: es[k].HeaderError?)
    && (s.headerErrors < |es| ==> es[|es| - s.headerErrors - 1].Head?)
    && (forall i | 0 <= i <= |es| && NoLogSuccess(es, i) :: LogFailures(es, i) <= s.logErrors)
    && (exists i | 0 <= i <= |es| :: LogFailures(es, i) == s.logErrors && NoLogSuccess(es, i))
  }

  lemma {:induction false} CountersAreExact(es: seq<Tick>)
    requires !Run(es).failed
    ensures CountersCount(es)
    ensures Run(es).headerErrors < MAX_CONSECUTIVE_ERRORS && Run(es).logErrors < MAX_CONSECUTIVE_ERRORS
  {
    if es == [] {
      assert LogFailures(es, 0) == 0 && NoLogSuccess(es, 0);
    } else {
      var n := |es| - 1;
      CountersAreExact(es[..n]);
      CountersStep(es);
    }
  }

  /** What came before does not depend on the last tick. */
  lemma CountsOfPrefix(es: seq<Tick>, i: nat)
    requires es != [] && i <= |es| - 1
    ensures var n := |es| - 1;
      && LogFailures(es, i) == LogFailures(es[..n], i) + (if Requests(es, n) && !es[n].ok then 1 else 0)
      && (NoLogSuccess(es, i) <==> NoLogSuccess(es[..n], i) && !(Requests(es, n) && es[n].ok))
  {
    var n := |es| - 1;
    forall k | 0 <= k < n ensures Requests(es, k) == Requests(es[..n], k) { assert es[..n][..k] == es[..k]; }
    if NoLogSuccess(es[..n], i) && !(Requests(es, n) && es[n].ok) {
      forall k | i <= k < |es| && Requests(es, k) ensures !es[k].ok {
        if k < n { assert Requests(es[..n], k) && !es[..n][k].ok; }
      }
    }
    if NoLogSuccess(es, i) {
      forall k | i <= k < n && Requests(es[..n], k) ensures !es[..n][k].ok { assert Requests(es, k); }
    }
  }

  lemma CountersStep(es: seq<Tick>)
    requires es != [] && CountersCount(es[..|es| - 1]) && !Run(es[..|es| - 1]).failed
    ensures CountersCount(es)
  {
    var n := |es| - 1;
    var es' := es[..n];
    assert forall k | 0 <= k < n :: es'[k] == es[k];
    var i: nat :| i <= n && LogFailures(es', i) == Run(es').logErrors && NoLogSuccess(es', i);
    CountsOfPrefix(es, i);
    if Requests(es, n) && es[n].ok {
      assert LogFailures(es, |es|) == 0 && NoLogSuccess(es, |es|);
    } else {
      assert LogFailures(es, i) == Run(es).logErrors && NoLogSuccess(es, i);
    }
    forall k: nat | k <= |es| && NoLogSuccess(es, k) ensures LogFailures(es, k) <= Run(es).logErrors {
      if k <= n { CountsOfPrefix(es, k); }
    }
  }

  /** The tick on which a cycle gives up is a third strike, and every third strike ends it. */
  lemma FailsOnStrike(es: seq<Tick>)
    requires es != [] && !Run(es[..|es| - 1]).failed
    ensures Run(es).failed <==> ThirdStrike(es)
  {
    CountersAreExact(es[..|es| - 1]);
    CountersStep(es);
  }

  /** Polling returns an error at exactly the first tick that is a third strike. */
  lemma {:induction false} GivesUpOnThirdStrike(es: seq<Tick>)
    ensures Run(es).failed <==> exists n | 0 <= n <= |es| :: ThirdStrike(es[..n])
  {
    if es != [] {
      var last := |es| - 1;
      GivesUpOnThirdStrike(es[..last]);
      assert es[..|es|] == es;
      forall k | 0 <= k <= last ensures es[..last][..k] == es[..k] {}
      if !Run(es[..last]).failed { FailsOnStrike(es); }
    }
  }

  // ---- A head below 5 ----

  /**
   With a first head below 5 the cursor wraps around to just below 2^64, and the cycle fetches nothing while
   heads stay below that.
   */
  lemma {:induction false} EarlyHeadStalls(es: seq<Tick>, r: nat, h: Block)
    requires FirstHeadAt(es, r) && h < 5 && es[r].block == h
    requires forall e | e in es && e.Head? :: e.block <= WORD - 5 + h
    ensures Run(es).fetched == [] && Run(es).lastBlock == WORD - 5 + h
  {
    var es' := es[..|es| - 1];
    assert es[|es| - 1] in es;
    if |es| == r + 1 {
      OnlyHeaderErrors(es');
      assert Cursor(INIT, h) == WORD - 5 + h;
    } else {
      assert es'[r] == es[r];
      EarlyHeadStalls(es', r, h);
    }
  }

  // ---- The loop ----

  /** The polling loop over the ticks of a cycle; it stops at the tick on which it gives up. */
  method Poll(ticks: seq<Tick>) returns (lastBlock: Block, fetched: seq<Fetch>, failed: bool)
    ensures lastBlock == Run(ticks).lastBlock && fetched == Run(ticks).fetched && failed == Run(ticks).failed
  {
    lastBlock, fetched, failed := 0, [], false;
    var headerErrors, logErrors, i := 0, 0, 0;
    while i < |ticks|
      invariant 0 <= i <= |ticks| && headerErrors >= 0 && logErrors >= 0
      invariant Run(ticks[..i]) == State(lastBlock, headerErrors, logErrors, fetched, false)
    {
      assert ticks[..i + 1][..i] == ticks[..i];
      var tick := ticks[i];
      i := i + 1;
      if tick.HeaderError? {
        headerErrors := headerErrors + 1;
        if headerErrors >= MAX_CONSECUTIVE_ERRORS {
          failed := true;
          StaysFailed(ticks, i);
          return;
        }
        continue;
      }
      headerErrors := 0;
      var currentBlock := tick.block;
      if lastBlock == 0 { lastBlock := (currentBlock + WORD - 5) % WORD; }
      if currentBlock <= lastBlock { continue; }
      var from := lastBlock + 1;
      var to := currentBlock;
      if to - from > 40 { to := from + 40; }
      if !tick.ok {
        logErrors := logErrors + 1;
        if logErrors >= MAX_CONSECUTIVE_ERRORS {
          failed := true;
          StaysFailed(ticks, i);
          return;
        }
        continue;
      }
      logErrors := 0;
      fetched := fetched + [Fetch(from, to, currentBlock)];
      lastBlock := to;
    }
    assert ticks[..|ticks|] == ticks;
  }

  lemma {:induction false} StaysFailed(es: seq<Tick>, n: nat)
    requires n <= |es| && Run(es[..n]).failed
    ensures Run(es) == Run(es[..n])
  {
    if n == |es| {
      assert es[..n] == es;
    } else {
      assert es[..|es| - 1][..n] == es[..n];
      StaysFailed(es[..|es| - 1], n);
    }
  }
}
