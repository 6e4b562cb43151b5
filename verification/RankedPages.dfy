/**
 The market list: a page of the activity ranking, found by a deduplicating scan that stops early, and filled up
 with recently created markets.  The two tables are read in a fixed row order; items are known by their market id.
 */
module RankedPages {
  import opened Decimal
  import opened Options
  import Cursors

  datatype Row = Row(id: string) | Unreadable

  datatype Meta = Meta(exchange: string, status: string)

  /** What the handler asks of its stores, and the request's filter; `fold` is case folding. */
  datatype Catalog = Catalog(canonical: string -> string, meta: string -> Option<Meta>, fold: string -> string,
                             exchange: string, status: string)

  function Wanted(c: Catalog, m: Meta): bool {
    && (c.exchange == "" || c.fold(m.exchange) == c.fold(c.exchange))
    && (c.status == "" || c.fold(m.status) == c.fold(c.status))
  }

  function CanonicalId(c: Catalog, id: string): string {
    if c.canonical(id) == "" then id else c.canonical(id)
  }

  /** Metadata under the canonical id, else under the row's own. */
  function MetaOf(c: Catalog, id: string): Option<Meta> {
    var m := c.meta(CanonicalId(c, id));
    if m.None? && CanonicalId(c, id) != id then c.meta(id) else m
  }

  /** The market a row of the ranking stands for, if it is readable, known and wanted. */
  function Candidate(c: Catalog, r: Row): Option<string> {
    if r.Unreadable? then None
    else
      var m := MetaOf(c, r.id);
      if m.Some? && Wanted(c, m.value) then Some(CanonicalId(c, r.id)) else None
  }

  function Recent(r: Row): Option<string> { if r.Unreadable? then None else Some(r.id) }

  // ---- Deduplication ----

  /** The candidates in order, each at its first occurrence, without those already seen. */
  function Dedup(xs: seq<Option<string>>, seen: set<string>): seq<string> {
    if xs == [] then []
    else
      var before, x := Dedup(xs[..|xs| - 1], seen), xs[|xs| - 1];
      if x.Some? && x.value !in before && x.value !in seen then before + [x.value] else before
  }

  predicate Distinct(s: seq<string>) { forall i, j | 0 <= i < j < |s| :: s[i] != s[j] }

  /** A shorter scan yields a prefix. */
  lemma {:induction false} DedupPrefix(xs: seq<Option<string>>, seen: set<string>, n: nat)
    requires n <= |xs|
    ensures Dedup(xs[..n], seen) <= Dedup(xs, seen)
  {
    if n == |xs| {
      assert xs[..n] == xs;
    } else {
      assert xs[..|xs| - 1][..n] == xs[..n];
      DedupPrefix(xs[..|xs| - 1], seen, n);
    }
  }

  lemma {:induction false} DedupIsDistinct(xs: seq<Option<string>>, seen: set<string>)
    ensures Distinct(Dedup(xs, seen))
    ensures forall id :: id in Dedup(xs, seen) <==> Some(id) in xs && id !in seen
  {
    if xs != [] {
      DedupIsDistinct(xs[..|xs| - 1], seen);
      assert xs == xs[..|xs| - 1] + [xs[|xs| - 1]];
    }
  }

  function Min(a: nat, b: nat): nat { if a < b then a else b }

  function Slice(s: seq<string>, from: nat, to: nat): seq<string>
    requires from <= to
  {
    if from >= |s| then [] else s[from..Min(to, |s|)]
  }

  // ---- The ranked page ----

  function QueryLimit(target: nat): (r: nat)
    ensures r >= 500 && r >= 10 * target && (r == 500 || r == 10 * target)
  {
    if target * 10 < 500 then 500 else target * 10
  }

  function Candidates(c: Catalog, rows: seq<Row>): seq<Option<string>> {
    seq(|rows|, i requires 0 <= i < |rows| => Candidate(c, rows[i]))
  }

  /** The deduplicated, filtered list over a whole ranking. */
  function Ideal(c: Catalog, rows: seq<Row>): seq<string> { Dedup(Candidates(c, rows), {}) }

  function Queried(rows: seq<Row>, target: nat): seq<Row> { rows[..Min(QueryLimit(target), |rows|)] }

  function RankedPage(c: Catalog, ranking: seq<Row>, limit: nat, offset: nat): seq<string> {
    Slice(Ideal(c, Queried(ranking, limit + offset)), offset, offset + limit)
  }

  lemma IdealPrefix(c: Catalog, rows: seq<Row>, n: nat)
    requires n <= |rows|
    ensures Ideal(c, rows[..n]) <= Ideal(c, rows)
  {
    assert Candidates(c, rows[..n]) == Candidates(c, rows)[..n];
    DedupPrefix(Candidates(c, rows), {}, n);
  }

  /** Metadata of the exchange and the status asked for, whatever the case, where one is asked for. */
  predicate Fits(c: Catalog, m: Option<Meta>) {
    && m.Some?
    && (c.exchange != "" ==> c.fold(m.value.exchange) == c.fold(c.exchange))
    && (c.status != "" ==> c.fold(m.value.status) == c.fold(c.status))
  }

  /**
   A readable row lists the market `id`: it is the id the row's resolves to, or the row's own if that is empty, and
   what is known of it, or if nothing is, of the row's own id, fits the request.
   */
  predicate Lists(c: Catalog, r: Row, id: string) {
    && r.Row?
    && (if c.canonical(r.id) == "" then id == r.id else id == c.canonical(r.id))
    && (if c.meta(id).Some? then Fits(c, c.meta(id)) else Fits(c, c.meta(r.id)))
  }

  predicate ListedBy(c: Catalog, rows: seq<Row>, id: string) { exists i :: 0 <= i < |rows| && Lists(c, rows[i], id) }

  lemma CandidateIff(c: Catalog, r: Row, id: string)
    ensures Candidate(c, r) == Some(id) <==> Lists(c, r, id)
  {}

  /** The markets of the list are those that some row lists. */
  lemma IdealIff(c: Catalog, rows: seq<Row>, id: string)
    ensures id in Ideal(c, rows) <==> ListedBy(c, rows, id)
  {
    var xs := Candidates(c, rows);
    DedupIsDistinct(xs, {});
    if Some(id) in xs {
      var i :| 0 <= i < |rows| && xs[i] == Some(id);
      CandidateIff(c, rows[i], id);
    }
    if i :| 0 <= i < |rows| && Lists(c, rows[i], id) {
      CandidateIff(c, rows[i], id);
      assert xs[i] == Some(id);
    }
  }

  /** Its order is that of their first rows: a market is listed before another one no row has listed by then. */
  lemma IdealInOrder(c: Catalog, rows: seq<Row>, n: nat, a: nat, b: nat)
    requires n <= |rows| && a < |Ideal(c, rows)| && b < |Ideal(c, rows)|
    requires ListedBy(c, rows[..n], Ideal(c, rows)[a]) && !ListedBy(c, rows[..n], Ideal(c, rows)[b])
    ensures a < b
  {
    IdealPrefix(c, rows, n);
    IdealIff(c, rows[..n], Ideal(c, rows)[a]);
    IdealIff(c, rows[..n], Ideal(c, rows)[b]);
    DedupIsDistinct(Candidates(c, rows), {});
    var k :| 0 <= k < |Ideal(c, rows[..n])| && Ideal(c, rows[..n])[k] == Ideal(c, rows)[a];
  }

  /** Every market of a ranked page is listed by a row of the ranking. */
  lemma PageIsListed(c: Catalog, ranking: seq<Row>, limit: nat, offset: nat)
    ensures forall id | id in RankedPage(c, ranking, limit, offset) :: ListedBy(c, ranking, id)
  {
    PageOfIdeal(c, ranking, limit, offset);
    forall id | id in RankedPage(c, ranking, limit, offset) ensures ListedBy(c, ranking, id) {
      IdealIff(c, ranking, id);
    }
  }

  /** What one more row adds to the list. */
  lemma IdealStep(c: Catalog, rows: seq<Row>, i: nat)
    requires i < |rows|
    ensures var before, x := Ideal(c, rows[..i]), Candidate(c, rows[i]);
      Ideal(c, rows[..i + 1]) == if x.Some? && x.value !in before then before + [x.value] else before
  {
    assert Candidates(c, rows[..i + 1])[..i] == Candidates(c, rows[..i]);
  }

  /** Rows after enough of them cannot change the page. */
  lemma EarlyStop(c: Catalog, rows: seq<Row>, i: nat, offset: nat, target: nat)
    requires i <= |rows| && offset <= target && (i == |rows| || |Ideal(c, rows[..i])| >= target)
    ensures Slice(Ideal(c, rows[..i]), offset, target) == Slice(Ideal(c, rows), offset, target)
  {
    if i == |rows| { assert rows[..i] == rows; } else { IdealPrefix(c, rows, i); }
  }

  /** The checks one row goes through: seen before, known, of the exchange and the status asked for. */
  method Consider(c: Catalog, row: Row, seen: set<string>) returns (found: Option<string>)
    ensures found == if Candidate(c, row).Some? && Candidate(c, row).value !in seen then Candidate(c, row) else None
    ensures forall id :: found == Some(id) <==> id !in seen && Lists(c, row, id)
  {
    if row.Unreadable? { return None; }
    var canonicalId := c.canonical(row.id);
    if canonicalId == "" { canonicalId := row.id; }
    if canonicalId in seen { return None; }
    var meta := c.meta(canonicalId);
    if meta.None? && canonicalId != row.id { meta := c.meta(row.id); }
    if meta.None? { return None; }
    if c.exchange != "" && c.fold(meta.value.exchange) != c.fold(c.exchange) { return None; }
    if c.status != "" && c.fold(meta.value.status) != c.fold(c.status) { return None; }
    return Some(canonicalId);
  }

  /** The scan, which stops as soon as it has `offset + limit` results. */
  method ActivityRankedMarkets(c: Catalog, ranking: seq<Row>, limit: nat, offset: nat) returns (page: seq<string>)
    requires limit > 0
    ensures page == RankedPage(c, ranking, limit, offset)
    ensures forall id | id in page :: ListedBy(c, ranking, id)
  {
    PageIsListed(c, ranking, limit, offset);
    var target := limit + offset;
    var rows := Queried(ranking, target);
    var results := Scan(c, rows, target);
    ghost var i: nat :| StoppedAt(c, rows, target, results, i);
    EarlyStop(c, rows, i, offset, target);
    page := Slice(results, offset, offset + limit);
  }

  /** A scan found `results` in the first `i` rows, and stopped there for want of rows or because it had enough. */
  predicate StoppedAt(c: Catalog, rows: seq<Row>, target: nat, results: seq<string>, i: nat) {
    i <= |rows| && results == Ideal(c, rows[..i]) && (i == |rows| || |results| >= target)
  }

  method Scan(c: Catalog, rows: seq<Row>, target: nat) returns (results: seq<string>)
    requires target > 0
    ensures exists i: nat :: StoppedAt(c, rows, target, results, i)
  {
    results := [];
    var seen: set<string>, i := {}, 0;
    while i < |rows|
      invariant i <= |rows| && results == Ideal(c, rows[..i])
      invariant forall id :: id in seen <==> id in results
      invariant |results| < target
    {
      var found := Consider(c, rows[i], seen);
      ScanStep(c, rows, i, results, found);
      i := i + 1;
      if found.None? { continue; }
      seen := seen + {found.value};
      results := results + [found.value];
      if |results| >= target { break; }
    }
    assert StoppedAt(c, rows, target, results, i);
  }

  lemma ScanStep(c: Catalog, rows: seq<Row>, i: nat, results: seq<string>, found: Option<string>)
    requires i < |rows| && results == Ideal(c, rows[..i])
    requires var x := Candidate(c, rows[i]); found == if x.Some? && x.value !in results then x else None
    ensures Ideal(c, rows[..i + 1]) == if found.None? then results else results + [found.value]
  {
    IdealStep(c, rows, i);
  }

  // ---- Pages and the ideal list ----

  /** A page is a stretch of the ideal list from its offset on; all of the stretch if it is full. */
  lemma PageOfIdeal(c: Catalog, ranking: seq<Row>, limit: nat, offset: nat)
    ensures var page, ideal := RankedPage(c, ranking, limit, offset), Ideal(c, ranking);
      && |page| <= limit
      && (page != [] ==> offset + |page| <= |ideal| && page == ideal[offset..offset + |page|])
  {
    IdealPrefix(c, ranking, Min(QueryLimit(limit + offset), |ranking|));
  }

  /** Ranked pages whose offsets are a page apart or more never share a market. */
  lemma PagesDisjoint(c: Catalog, ranking: seq<Row>, limit: nat, o1: nat, o2: nat)
    requires o1 + limit <= o2
    ensures forall id | id in RankedPage(c, ranking, limit, o1) :: id !in RankedPage(c, ranking, limit, o2)
    ensures Distinct(RankedPage(c, ranking, limit, o1))
  {
    PageOfIdeal(c, ranking, limit, o1);
    PageOfIdeal(c, ranking, limit, o2);
    DedupIsDistinct(Candidates(c, ranking), {});
  }

  /** Pages from `offset` on, `n` of them, one after the other. */
  function Linked(page: nat -> seq<string>, limit: nat, offset: nat, n: nat): seq<string>
    decreases n
  {
    if n == 0 then [] else page(offset) + Linked(page, limit, offset + limit, n - 1)
  }

  function PageAt(c: Catalog, ranking: seq<Row>, limit: nat): nat -> seq<string> {
    (offset: nat) => RankedPage(c, ranking, limit, offset)
  }

  /** The ranked pages a client gets by following `n` cursors from `offset` on. */
  function CursorPages(c: Catalog, ranking: seq<Row>, limit: nat, offset: nat, n: nat): seq<string> {
    Linked(PageAt(c, ranking, limit), limit, offset, n)
  }

  function Rest(s: seq<string>, from: nat): seq<string> { if from >= |s| then [] else s[from..] }

  /** The length a page has if nothing is missing. */
  function Due(length: nat, limit: nat, offset: nat): nat {
    if offset >= length then 0 else Min(limit, length - offset)
  }

  /** A page from `offset` on is a stretch of the list, of at most its due length. */
  predicate Stretch(page: seq<string>, ideal: seq<string>, limit: nat, offset: nat) {
    && |page| <= Due(|ideal|, limit, offset)
    && (page != [] ==> offset + |page| <= |ideal| && page == ideal[offset..offset + |page|])
  }

  ghost predicate Stretches(page: nat -> seq<string>, ideal: seq<string>, limit: nat) {
    forall o: nat :: Stretch(page(o), ideal, limit, o)
  }

  function AllDue(length: nat, limit: nat, offset: nat, n: nat): nat
    decreases n
  {
    if n == 0 then 0 else Due(length, limit, offset) + AllDue(length, limit, offset + limit, n - 1)
  }

  /** Each of the `n` pages has its due length. */
  predicate NoneShort(page: nat -> seq<string>, length: nat, limit: nat, offset: nat, n: nat)
    decreases n
  {
    n > 0 ==> |page(offset)| == Due(length, limit, offset) && NoneShort(page, length, limit, offset + limit, n - 1)
  }

  lemma {:induction false} LinkedLength(page: nat -> seq<string>, ideal: seq<string>, limit: nat, offset: nat, n: nat)
    requires Stretches(page, ideal, limit)
    ensures |Linked(page, limit, offset, n)| <= AllDue(|ideal|, limit, offset, n)
    ensures |Linked(page, limit, offset, n)| == AllDue(|ideal|, limit, offset, n)
       <==> NoneShort(page, |ideal|, limit, offset, n)
    decreases n
  {
    if n > 0 {
      assert Stretch(page(offset), ideal, limit, offset);
      LinkedLength(page, ideal, limit, offset + limit, n - 1);
    }
  }

  lemma {:induction false} AllDueIsRest(length: nat, limit: nat, offset: nat, n: nat)
    requires offset + n * limit >= length
    ensures AllDue(length, limit, offset, n) == if offset >= length then 0 else length - offset
    decreases n
  {
    if n > 0 {
      Times(n, limit);
      AllDueIsRest(length, limit, offset + limit, n - 1);
    }
  }

  lemma Times(n: nat, limit: nat)
    requires n > 0
    ensures n * limit == limit + (n - 1) * limit
  {}

  /** Pages of due length are the list from the offset on, as far as they go. */
  lemma {:induction false} LinkedIsStretch(page: nat -> seq<string>, ideal: seq<string>, limit: nat, offset: nat,
                                           n: nat, end: nat)
    requires Stretches(page, ideal, limit) && NoneShort(page, |ideal|, limit, offset, n) && end == offset + n * limit
    ensures Linked(page, limit, offset, n) == Slice(ideal, offset, end)
    decreases n
  {
    if n > 0 {
      Times(n, limit);
      LinkedIsStretch(page, ideal, limit, offset + limit, n - 1, end);
      assert Stretch(page(offset), ideal, limit, offset);
      DueStretch(page(offset), Linked(page, limit, offset + limit, n - 1), ideal, limit, offset, end);
    }
  }

  lemma DueStretch(page: seq<string>, rest: seq<string>, ideal: seq<string>, limit: nat, offset: nat, end: nat)
    requires Stretch(page, ideal, limit, offset) && |page| == Due(|ideal|, limit, offset)
    requires offset + limit <= end && rest == Slice(ideal, offset + limit, end)
    ensures page + rest == Slice(ideal, offset, end)
  {
    DueIsSlice(page, ideal, limit, offset);
    SplitSlice(ideal, offset, offset + limit, end);
  }

  lemma DueIsSlice(page: seq<string>, ideal: seq<string>, limit: nat, offset: nat)
    requires Stretch(page, ideal, limit, offset) && |page| == Due(|ideal|, limit, offset)
    ensures page == Slice(ideal, offset, offset + limit)
  {
    if page == [] { assert Due(|ideal|, limit, offset) == 0; }
  }

  lemma SplitSlice(s: seq<string>, from: nat, mid: nat, to: nat)
    requires from <= mid <= to
    ensures Slice(s, from, mid) + Slice(s, mid, to) == Slice(s, from, to)
  {}

  lemma RankedStretches(c: Catalog, ranking: seq<Row>, limit: nat)
    ensures Stretches(PageAt(c, ranking, limit), Ideal(c, ranking), limit)
  {
    forall o: nat ensures Stretch(PageAt(c, ranking, limit)(o), Ideal(c, ranking), limit, o) {
      PageOfIdeal(c, ranking, limit, o);
    }
  }

  // ---- When a traversal reads everything ----

  /** As long as they are full, cursor-linked ranked pages are the ideal list, without overlap or gap. */
  lemma FullPagesAreIdeal(c: Catalog, ranking: seq<Row>, limit: nat, offset: nat, n: nat)
    requires limit > 0 && AllFull(PageAt(c, ranking, limit), limit, offset, n) && offset <= |Ideal(c, ranking)|
    ensures var end, ideal := offset + n * limit, Ideal(c, ranking);
      end <= |ideal| && CursorPages(c, ranking, limit, offset, n) == ideal[offset..end]
  {
    RankedStretches(c, ranking, limit);
    FullAreLinked(PageAt(c, ranking, limit), Ideal(c, ranking), limit, offset, n, offset + n * limit);
  }

  lemma FullAreLinked(page: nat -> seq<string>, ideal: seq<string>, limit: nat, offset: nat, n: nat, end: nat)
    requires limit > 0 && Stretches(page, ideal, limit) && AllFull(page, limit, offset, n) && offset <= |ideal|
    requires end == offset + n * limit
    ensures offset <= end <= |ideal| && Linked(page, limit, offset, n) == ideal[offset..end]
  {
    FullPages(page, ideal, limit, offset, n);
    LinkedIsStretch(page, ideal, limit, offset, n, end);
  }

  predicate AllFull(page: nat -> seq<string>, limit: nat, offset: nat, n: nat)
    decreases n
  {
    n > 0 ==> |page(offset)| == limit && AllFull(page, limit, offset + limit, n - 1)
  }

  lemma {:induction false} FullPages(page: nat -> seq<string>, ideal: seq<string>, limit: nat, offset: nat, n: nat)
    requires limit > 0 && Stretches(page, ideal, limit) && AllFull(page, limit, offset, n) && offset <= |ideal|
    ensures offset + n * limit <= |ideal| && NoneShort(page, |ideal|, limit, offset, n)
    decreases n
  {
    if n > 0 {
      Times(n, limit);
      assert Stretch(page(offset), ideal, limit, offset);
      FullPages(page, ideal, limit, offset + limit, n - 1);
    }
  }

  /** The rows queried for a page that ends at `t` hold the first `t` markets, or all there are. */
  predicate Supplied(c: Catalog, ranking: seq<Row>, t: nat) {
    |Ideal(c, Queried(ranking, t))| >= Min(t, |Ideal(c, ranking)|)
  }

  /** For each of the `n` pages: the list ends before it, or it is supplied. */
  predicate AllSupplied(c: Catalog, ranking: seq<Row>, limit: nat, offset: nat, n: nat)
    decreases n
  {
    n > 0 ==>
      && (offset >= |Ideal(c, ranking)| || Supplied(c, ranking, offset + limit))
      && AllSupplied(c, ranking, limit, offset + limit, n - 1)
  }

  lemma PageDue(c: Catalog, ranking: seq<Row>, limit: nat, offset: nat)
    requires limit > 0
    ensures var page, length := RankedPage(c, ranking, limit, offset), |Ideal(c, ranking)|;
      && |page| <= Due(length, limit, offset)
      && (|page| == Due(length, limit, offset) <==> offset >= length || Supplied(c, ranking, offset + limit))
  {
    IdealPrefix(c, ranking, Min(QueryLimit(limit + offset), |ranking|));
  }

  lemma {:induction false} SuppliedIffNoneShort(c: Catalog, ranking: seq<Row>, limit: nat, offset: nat, n: nat)
    requires limit > 0
    ensures AllSupplied(c, ranking, limit, offset, n)
       <==> NoneShort(PageAt(c, ranking, limit), |Ideal(c, ranking)|, limit, offset, n)
    decreases n
  {
    if n > 0 {
      PageDue(c, ranking, limit, offset);
      SuppliedIffNoneShort(c, ranking, limit, offset + limit, n - 1);
    }
  }

  /**
   Following enough cursors from `offset` on reads all of the ranking's markets from there, in order, exactly if the
   rows queried for each page that begins before the end of the list hold that page.
   */
  lemma TraversalIff(c: Catalog, ranking: seq<Row>, limit: nat, offset: nat, n: nat)
    requires limit > 0 && offset + n * limit >= |Ideal(c, ranking)|
    ensures CursorPages(c, ranking, limit, offset, n) == Rest(Ideal(c, ranking), offset)
       <==> AllSupplied(c, ranking, limit, offset, n)
  {
    RankedStretches(c, ranking, limit);
    SuppliedIffNoneShort(c, ranking, limit, offset, n);
    LinkedIffNoneShort(PageAt(c, ranking, limit), Ideal(c, ranking), limit, offset, n);
  }

  lemma LinkedIffNoneShort(page: nat -> seq<string>, ideal: seq<string>, limit: nat, offset: nat, n: nat)
    requires Stretches(page, ideal, limit) && offset + n * limit >= |ideal|
    ensures Linked(page, limit, offset, n) == Rest(ideal, offset) <==> NoneShort(page, |ideal|, limit, offset, n)
  {
    LinkedLength(page, ideal, limit, offset, n);
    AllDueIsRest(|ideal|, limit, offset, n);
    if NoneShort(page, |ideal|, limit, offset, n) {
      LinkedIsStretch(page, ideal, limit, offset, n, offset + n * limit);
    }
  }

  lemma TwoStretches(s: seq<string>, from: nat, a: seq<string>, b: seq<string>)
    requires from + |a| + |b| <= |s| && a == s[from..from + |a|] && b == s[from + |a|..from + |a| + |b|]
    ensures a + b == s[from..from + |a + b|]
  {}

  /**
   A nonempty next page continues the ideal list exactly when the page before it was full, that is, when its queried
   rows hold it.
   */
  lemma NoGapIffFull(c: Catalog, ranking: seq<Row>, limit: nat, offset: nat)
    requires RankedPage(c, ranking, limit, offset + limit) != []
    ensures var p1, p2 := RankedPage(c, ranking, limit, offset), RankedPage(c, ranking, limit, offset + limit);
      var ideal := Ideal(c, ranking);
      offset + limit + |p2| <= |ideal|
      && (p1 + p2 == ideal[offset..offset + limit + |p2|] <==> |p1| == limit)
    ensures |RankedPage(c, ranking, limit, offset)| == limit <==> Supplied(c, ranking, offset + limit)
  {
    PageDue(c, ranking, limit, offset);
    PageOfIdeal(c, ranking, limit, offset + limit);
    FullPrecedes(c, ranking, limit, offset);
  }

  lemma FullPrecedes(c: Catalog, ranking: seq<Row>, limit: nat, offset: nat)
    requires RankedPage(c, ranking, limit, offset + limit) != []
    ensures var p1, p2 := RankedPage(c, ranking, limit, offset), RankedPage(c, ranking, limit, offset + limit);
      var ideal := Ideal(c, ranking);
      offset + limit + |p2| <= |ideal|
      && (p1 + p2 == ideal[offset..offset + limit + |p2|] <==> |p1| == limit)
  {
    PageOfIdeal(c, ranking, limit, offset);
    PageOfIdeal(c, ranking, limit, offset + limit);
    var p1, p2 := RankedPage(c, ranking, limit, offset), RankedPage(c, ranking, limit, offset + limit);
    var ideal := Ideal(c, ranking);
    if |p1| == limit { TwoStretches(ideal, offset, p1, p2); } else { assert |p1 + p2| < limit + |p2|; }
  }

  // ---- A short page before a nonempty one ----

  /** 500 traded markets that no metadata is known of, then 100 that are known. */
  function LateRanking(): seq<Row> {
    seq(500, (i: nat) => Row("m" + Itoa(i))) + seq(100, (i: nat) => Row(Itoa(i)))
  }

  /** Ids that begin with an m are unknown; all others are markets of the exchange asked for by default. */
  function SomeCatalog(): Catalog {
    Catalog((id: string) => id,
            (id: string) => if "m" <= id then None else Some(Meta("polymarket", "")),
            (s: string) => s, "polymarket", "")
  }

  /** The market ids "0", "1" and so on. */
  function Numbers(n: nat): seq<string> { seq(n, (i: nat) => Itoa(i)) }

  lemma NumbersGrow(n: nat)
    ensures Itoa(n) !in Numbers(n) && Numbers(n + 1) == Numbers(n) + [Itoa(n)]
  {
    forall i: nat | i < n ensures Itoa(i) != Itoa(n) { if Itoa(i) == Itoa(n) { ItoaInjective(i, n); } }
  }

  lemma LateCandidate(i: nat)
    requires i < 600
    ensures Candidate(SomeCatalog(), LateRanking()[i]) == if i < 500 then None else Some(Itoa(i - 500))
  {
    if i < 500 { assert LateRanking()[i] == Row("m" + Itoa(i)); } else { ItoaIsNoM(i - 500); }
  }

  lemma {:induction false} LateIdeal(n: nat)
    requires n <= 600
    ensures Ideal(SomeCatalog(), LateRanking()[..n]) == Numbers(if n <= 500 then 0 else n - 500)
  {
    if n > 0 {
      LateIdeal(n - 1);
      LateCandidate(n - 1);
      IdealStep(SomeCatalog(), LateRanking(), n - 1);
      if n > 500 { NumbersGrow(n - 501); }
    }
  }

  lemma ItoaIsNoM(n: nat)
    ensures !("m" <= Itoa(n))
  {
    ValueOfDigits(n);
    assert Itoa(n)[0] in Itoa(n);
  }

  /** With 50 markets a page, the first ranked page is empty and the second starts at the fifty-first market. */
  lemma ShortPageSkips()
    ensures |Ideal(SomeCatalog(), LateRanking())| == 100
    ensures RankedPage(SomeCatalog(), LateRanking(), 50, 0) == []
    ensures RankedPage(SomeCatalog(), LateRanking(), 50, 50) == Ideal(SomeCatalog(), LateRanking())[50..]
  {
    LateIdeal(600);
    assert LateRanking()[..600] == LateRanking();
    LatePage(50);
    LatePage(100);
  }

  lemma LatePage(t: nat)
    requires t == 50 || t == 100
    ensures Ideal(SomeCatalog(), Queried(LateRanking(), t)) == Numbers(if t == 50 then 0 else 100)
  {
    var n := if t == 50 then 500 else 600;
    assert Queried(LateRanking(), t) == LateRanking()[..n];
    LateIdeal(n);
  }

  // ---- Filling up ----

  function RecentIds(rows: seq<Row>): seq<Option<string>> { seq(|rows|, i requires 0 <= i < |rows| => Recent(rows[i])) }

  function NonEmptyIds(ids: seq<string>): set<string> { set id | id in ids && id != "" }

  function ScanLimit(limit: nat): (r: nat)
    ensures r >= 200 && r >= 5 * limit && (r == 200 || r == 5 * limit)
  {
    if limit * 5 < 200 then 200 else limit * 5
  }

  /** The first `limit` distinct recent markets that are not on the page already. */
  function Filler(recent: seq<Row>, limit: nat, existing: seq<string>): seq<string> {
    Slice(Dedup(RecentIds(recent[..Min(ScanLimit(limit), |recent|)]), NonEmptyIds(existing)), 0, limit)
  }

  lemma FillerStep(rows: seq<Row>, taken: set<string>, i: nat)
    requires i < |rows|
    ensures var before, x := Dedup(RecentIds(rows[..i]), taken), Recent(rows[i]);
      Dedup(RecentIds(rows[..i + 1]), taken)
      == if x.Some? && x.value !in before && x.value !in taken then before + [x.value] else before
  {
    assert RecentIds(rows[..i + 1])[..i] == RecentIds(rows[..i]);
  }

  lemma FillerEarlyStop(rows: seq<Row>, taken: set<string>, i: nat, limit: nat)
    requires i <= |rows|
    requires var r := Dedup(RecentIds(rows[..i]), taken); |r| <= limit && (i == |rows| || |r| == limit)
    ensures Dedup(RecentIds(rows[..i]), taken) == Slice(Dedup(RecentIds(rows), taken), 0, limit)
  {
    assert RecentIds(rows[..i]) == RecentIds(rows)[..i];
    DedupPrefix(RecentIds(rows), taken, i);
    if i == |rows| { assert rows[..i] == rows; }
  }

  method RecentMarkets(recent: seq<Row>, limit: int, existing: seq<string>) returns (r: seq<string>)
    ensures r == if limit <= 0 then [] else Filler(recent, limit, existing)
  {
    if limit <= 0 { return []; }
    ghost var taken := NonEmptyIds(existing);
    var seen: set<string> := {};
    for i := 0 to |existing|
      invariant seen == NonEmptyIds(existing[..i])
    {
      if existing[i] != "" { seen := seen + {existing[i]}; }
      assert existing[..i + 1] == existing[..i] + [existing[i]];
    }
    assert existing[..|existing|] == existing;
    var rows := recent[..Min(ScanLimit(limit), |recent|)];
    r := [];
    var i := 0;
    while i < |rows|
      invariant i <= |rows| && r == Dedup(RecentIds(rows[..i]), taken)
      invariant forall id :: id in seen <==> id in taken || id in r
      invariant |r| < limit
    {
      FillerStep(rows, taken, i);
      var row := rows[i];
      i := i + 1;
      if row.Unreadable? || row.id in seen { continue; }
      seen := seen + {row.id};
      r := r + [row.id];
      if |r| >= limit { break; }
    }
    FillerEarlyStop(rows, taken, i, limit);
  }

  // ---- The whole page ----

  datatype Page = Page(data: seq<string>, hasMore: bool, nextCursor: string)

  function FilledPage(c: Catalog, ranking: seq<Row>, recent: seq<Row>, limit: nat, offset: nat): seq<string> {
    var ranked := RankedPage(c, ranking, limit, offset);
    if |ranked| < limit then ranked + Filler(recent, limit - |ranked|, ranked) else ranked
  }

  /**
   A page has at most `limit` items, and no market twice unless the empty id is both ranked and picked as a filler:
   ranked items with an empty id are not remembered as seen.
   */
  lemma PageItemsDistinct(c: Catalog, ranking: seq<Row>, recent: seq<Row>, limit: nat, offset: nat)
    ensures var ranked, page := RankedPage(c, ranking, limit, offset), FilledPage(c, ranking, recent, limit, offset);
      && |page| <= limit
      && (Distinct(page) <==>
            !("" in ranked && |ranked| < limit && "" in Filler(recent, limit - |ranked|, ranked)))
      && (forall i, j | 0 <= i < j < |page| && page[i] == page[j] :: page[i] == "")
  {
    var ranked := RankedPage(c, ranking, limit, offset);
    PageOfIdeal(c, ranking, limit, offset);
    DedupIsDistinct(Candidates(c, ranking), {});
    if |ranked| < limit {
      var rest := limit - |ranked|;
      var all := Dedup(RecentIds(recent[..Min(ScanLimit(rest), |recent|)]), NonEmptyIds(ranked));
      DedupIsDistinct(RecentIds(recent[..Min(ScanLimit(rest), |recent|)]), NonEmptyIds(ranked));
      var filler := Filler(recent, rest, ranked);
      assert forall id | id in filler :: id in all;
      AppendDistinct(ranked, filler);
    }
  }

  /** The empty id is a market of the ranking, and it is in the recent table. */
  predicate EmptyIdInBoth(c: Catalog, ranking: seq<Row>, recent: seq<Row>) {
    Row("") in ranking && Candidate(c, Row("")) == Some("") && Row("") in recent
  }

  lemma EmptyIdRanked(c: Catalog, ranking: seq<Row>)
    ensures "" in Ideal(c, ranking) <==> Row("") in ranking && Candidate(c, Row("")) == Some("")
  {
    var xs := Candidates(c, ranking);
    DedupIsDistinct(xs, {});
    if Some("") in xs {
      var i :| 0 <= i < |ranking| && xs[i] == Some("");
      assert Candidate(c, ranking[i]) == Some("") && ranking[i] == Row("");
    }
    if Row("") in ranking && Candidate(c, Row("")) == Some("") {
      var i :| 0 <= i < |ranking| && ranking[i] == Row("");
      assert xs[i] == Some("");
    }
  }

  lemma EmptyIdRecent(recent: seq<Row>, existing: seq<string>)
    ensures "" in Dedup(RecentIds(recent), NonEmptyIds(existing)) <==> Row("") in recent
  {
    RecentIff(recent, existing, "");
  }

  /** The fillers to choose from are the readable recent markets not on the page, and always the empty id. */
  lemma RecentIff(recent: seq<Row>, existing: seq<string>, id: string)
    ensures id in Dedup(RecentIds(recent), NonEmptyIds(existing))
       <==> Row(id) in recent && (id == "" || id !in existing)
  {
    var xs := RecentIds(recent);
    DedupIsDistinct(xs, NonEmptyIds(existing));
    if Some(id) in xs {
      var i :| 0 <= i < |recent| && xs[i] == Some(id);
      assert recent[i] == Row(id);
    }
    if Row(id) in recent {
      var i :| 0 <= i < |recent| && recent[i] == Row(id);
      assert xs[i] == Some(id);
    }
  }

  /** A page that is not full holds every readable market of the recent rows scanned for it. */
  lemma ShortPageHasAll(c: Catalog, ranking: seq<Row>, recent: seq<Row>, limit: nat, offset: nat, i: nat)
    requires |FilledPage(c, ranking, recent, limit, offset)| < limit && i < |recent| && recent[i].Row?
    requires var ranked := RankedPage(c, ranking, limit, offset);
      |ranked| < limit && i < ScanLimit(limit - |ranked|)
    ensures recent[i].id in FilledPage(c, ranking, recent, limit, offset)
  {
    var ranked := RankedPage(c, ranking, limit, offset);
    var rows := recent[..Min(ScanLimit(limit - |ranked|), |recent|)];
    assert rows[i] == recent[i] && rows[i] in rows;
    RecentIff(rows, ranked, recent[i].id);
  }

  /** Unless the empty id is in both tables, no page lists a market twice. */
  lemma DistinctUnlessEmptyId(c: Catalog, ranking: seq<Row>, recent: seq<Row>, limit: nat, offset: nat)
    requires !EmptyIdInBoth(c, ranking, recent)
    ensures Distinct(FilledPage(c, ranking, recent, limit, offset))
  {
    PageItemsDistinct(c, ranking, recent, limit, offset);
    PageOfIdeal(c, ranking, limit, offset);
    EmptyIdRanked(c, ranking);
    var ranked := RankedPage(c, ranking, limit, offset);
    if |ranked| < limit { EmptyIdFills(recent, limit - |ranked|, ranked); }
  }

  lemma EmptyIdFills(recent: seq<Row>, limit: nat, existing: seq<string>)
    ensures "" in Filler(recent, limit, existing) ==> Row("") in recent
  {
    var rows := recent[..Min(ScanLimit(limit), |recent|)];
    EmptyIdRecent(rows, existing);
    assert Row("") in rows ==> Row("") in recent;
  }

  /**
   No page of any size lists a market twice exactly on that condition; if both tables together fit on a page of
   `max`, no page of up to that size does.
   */
  lemma DistinctIff(c: Catalog, ranking: seq<Row>, recent: seq<Row>, max: nat)
    ensures (forall limit: nat, offset: nat :: Distinct(FilledPage(c, ranking, recent, limit, offset)))
       <==> !EmptyIdInBoth(c, ranking, recent)
    ensures |ranking| + |recent| < max ==>
      ((forall limit: nat, offset: nat | limit <= max :: Distinct(FilledPage(c, ranking, recent, limit, offset)))
       <==> !EmptyIdInBoth(c, ranking, recent))
  {
    if EmptyIdInBoth(c, ranking, recent) {
      EmptyIdRepeats(c, ranking, recent, |ranking| + |recent| + 1);
      if |ranking| + |recent| < max { EmptyIdRepeats(c, ranking, recent, max); }
    } else {
      forall limit: nat, offset: nat ensures Distinct(FilledPage(c, ranking, recent, limit, offset)) {
        DistinctUnlessEmptyId(c, ranking, recent, limit, offset);
      }
    }
  }

  lemma EmptyIdRepeats(c: Catalog, ranking: seq<Row>, recent: seq<Row>, max: nat)
    requires |ranking| + |recent| < max && EmptyIdInBoth(c, ranking, recent)
    ensures !Distinct(FilledPage(c, ranking, recent, max, 0))
  {
    WholePage(c, ranking, recent, max);
    EmptyIdRanked(c, ranking);
    EmptyIdRecent(recent, Ideal(c, ranking));
    PageItemsDistinct(c, ranking, recent, max, 0);
  }

  lemma WholePage(c: Catalog, ranking: seq<Row>, recent: seq<Row>, max: nat)
    requires |ranking| + |recent| < max
    ensures var ranked := RankedPage(c, ranking, max, 0);
      && ranked == Ideal(c, ranking) && |ranked| < max
      && Filler(recent, max - |ranked|, ranked) == Dedup(RecentIds(recent), NonEmptyIds(ranked))
  {
    assert Queried(ranking, max) == ranking;
    DedupLength(Candidates(c, ranking), {});
    var ranked := RankedPage(c, ranking, max, 0);
    assert recent[..Min(ScanLimit(max - |ranked|), |recent|)] == recent;
    DedupLength(RecentIds(recent), NonEmptyIds(ranked));
  }

  lemma {:induction false} DedupLength(xs: seq<Option<string>>, seen: set<string>)
    ensures |Dedup(xs, seen)| <= |xs|
  {
    if xs != [] { DedupLength(xs[..|xs| - 1], seen); }
  }

  /** One market with an empty id, ranked and recent, is listed twice on a page of two. */
  lemma EmptyIdTwice()
    ensures FilledPage(SomeCatalog(), [Row("")], [Row("")], 2, 0) == ["", ""]
  {
    var c, rows := SomeCatalog(), [Row("")];
    assert rows[..1] == rows && Candidates(c, rows) == [Some("")] && RecentIds(rows) == [Some("")];
    assert Dedup([Some("")][..0], {}) == [];
    assert Dedup([Some("")], {}) == [""];
    assert NonEmptyIds([""]) == {};
  }

  lemma AppendDistinct(a: seq<string>, b: seq<string>)
    requires Distinct(a) && Distinct(b) && forall id | id in a && id in b :: id == ""
    ensures Distinct(a + b) <==> !("" in a && "" in b)
    ensures forall i, j | 0 <= i < j < |a + b| && (a + b)[i] == (a + b)[j] :: (a + b)[i] == ""
  {
    if "" in a && "" in b {
      var i :| 0 <= i < |a| && a[i] == "";
      var j :| 0 <= j < |b| && b[j] == "";
      assert (a + b)[i] == (a + b)[|a| + j];
    }
    forall i, j | 0 <= i < j < |a + b| && (a + b)[i] == (a + b)[j]
      ensures (a + b)[i] == "" && "" in a && "" in b
    {
      if i < |a| <= j { assert a[i] in a && b[j - |a|] in b; }
    }
  }

  /** Fillers come after the ranked markets, are recent, and none is among them, save the empty id. */
  lemma FillersFollow(c: Catalog, ranking: seq<Row>, recent: seq<Row>, limit: nat, offset: nat)
    ensures var ranked, page := RankedPage(c, ranking, limit, offset), FilledPage(c, ranking, recent, limit, offset);
      && ranked <= page
      && forall id | id in page[|ranked|..] :: Row(id) in recent && (id in ranked ==> id == "")
  {
    var ranked := RankedPage(c, ranking, limit, offset);
    var page := FilledPage(c, ranking, recent, limit, offset);
    if |ranked| < limit {
      var rows := recent[..Min(ScanLimit(limit - |ranked|), |recent|)];
      var all := Dedup(RecentIds(rows), NonEmptyIds(ranked));
      DedupIsDistinct(RecentIds(rows), NonEmptyIds(ranked));
      forall id | id in page[|ranked|..] ensures Row(id) in recent && (id in ranked ==> id == "") {
        assert id in all;
        var i :| 0 <= i < |rows| && RecentIds(rows)[i] == Some(id);
        assert recent[i] == Row(id);
      }
    }
  }

  // ---- Fillers across pages ----

  /**
   Beyond the ranking every page is the same, made of fillers only: two such pages share a market exactly if the
   recent rows scanned hold one, and such a page is full, so that another one follows, exactly if they hold `limit`.
   */
  lemma BeyondTheRanking(c: Catalog, ranking: seq<Row>, recent: seq<Row>, limit: nat, o1: nat, o2: nat)
    requires limit > 0 && |Ideal(c, ranking)| <= o1 && |Ideal(c, ranking)| <= o2
    ensures var p1, p2 := FilledPage(c, ranking, recent, limit, o1), FilledPage(c, ranking, recent, limit, o2);
      var fillers := Dedup(RecentIds(recent[..Min(ScanLimit(limit), |recent|)]), {});
      && p1 == p2 == Filler(recent, limit, [])
      && ((exists id :: id in p1 && id in p2) <==> fillers != [])
      && (|p1| == limit <==> |fillers| >= limit)
  {
    PageOfIdeal(c, ranking, limit, o1);
    PageOfIdeal(c, ranking, limit, o2);
    var fillers := Dedup(RecentIds(recent[..Min(ScanLimit(limit), |recent|)]), {});
    assert NonEmptyIds([]) == {};
    if fillers != [] { assert fillers[0] in Filler(recent, limit, []); }
  }

  function Fillers(c: Catalog, ranking: seq<Row>, recent: seq<Row>, limit: nat, offset: nat): seq<string> {
    var ranked := RankedPage(c, ranking, limit, offset);
    if |ranked| < limit then Filler(recent, limit - |ranked|, ranked) else []
  }

  /** Two pages a page apart or more share a market exactly if a filler of one of them is on the other. */
  lemma PagesShareIff(c: Catalog, ranking: seq<Row>, recent: seq<Row>, limit: nat, o1: nat, o2: nat)
    requires o1 + limit <= o2
    ensures var p1, p2 := FilledPage(c, ranking, recent, limit, o1), FilledPage(c, ranking, recent, limit, o2);
      var f1, f2 := Fillers(c, ranking, recent, limit, o1), Fillers(c, ranking, recent, limit, o2);
      (exists id :: id in p1 && id in p2) <==> (exists id :: (id in f1 && id in p2) || (id in f2 && id in p1))
  {
    PagesDisjoint(c, ranking, limit, o1, o2);
    PageParts(c, ranking, recent, limit, o1);
    PageParts(c, ranking, recent, limit, o2);
  }

  lemma PageParts(c: Catalog, ranking: seq<Row>, recent: seq<Row>, limit: nat, offset: nat)
    ensures forall id :: id in FilledPage(c, ranking, recent, limit, offset) <==>
      id in RankedPage(c, ranking, limit, offset) || id in Fillers(c, ranking, recent, limit, offset)
  {}

  /** The recent row that puts the empty id on the page: few enough other markets precede it. */
  predicate FillsAt(recent: seq<Row>, limit: nat, existing: seq<string>, i: nat) {
    && i < |recent| && i < ScanLimit(limit) && recent[i] == Row("")
    && |Dedup(RecentIds(recent[..i]), NonEmptyIds(existing))| < limit
  }

  predicate EmptyIdFits(recent: seq<Row>, room: int, existing: seq<string>) {
    room > 0 && exists i | 0 <= i < |recent| :: FillsAt(recent, room, existing, i)
  }

  lemma EmptyIdFillsIff(recent: seq<Row>, limit: nat, existing: seq<string>)
    ensures "" in Filler(recent, limit, existing) <==> EmptyIdFits(recent, limit, existing)
  {
    var taken, rows := NonEmptyIds(existing), recent[..Min(ScanLimit(limit), |recent|)];
    var all := Dedup(RecentIds(rows), taken);
    if "" in Filler(recent, limit, existing) {
      var k :| 0 <= k < |all| && k < limit && all[k] == "";
      var i := SourceOf(rows, taken, k);
      assert rows[..i] == recent[..i];
      assert FillsAt(recent, limit, existing, i);
    }
    if i: nat :| i < |recent| && FillsAt(recent, limit, existing, i) {
      assert rows[..i] == recent[..i];
      FillerStep(rows, taken, i);
      AmongFirst(rows, taken, i, limit);
    }
  }

  /** The row that gave the `k`-th filler. */
  lemma {:induction false} SourceOf(rows: seq<Row>, taken: set<string>, k: nat) returns (i: nat)
    requires k < |Dedup(RecentIds(rows), taken)|
    ensures i < |rows| && rows[i] == Row(Dedup(RecentIds(rows), taken)[k])
    ensures |Dedup(RecentIds(rows[..i]), taken)| == k
  {
    var n := |rows| - 1;
    assert RecentIds(rows)[..n] == RecentIds(rows[..n]);
    if k < |Dedup(RecentIds(rows[..n]), taken)| {
      i := SourceOf(rows[..n], taken, k);
      assert rows[..n][..i] == rows[..i];
    } else {
      i := n;
    }
  }

  lemma AmongFirst(rows: seq<Row>, taken: set<string>, i: nat, limit: nat)
    requires i < |rows| && |Dedup(RecentIds(rows[..i]), taken)| < limit
    requires "" in Dedup(RecentIds(rows[..i + 1]), taken)
    requires |Dedup(RecentIds(rows[..i + 1]), taken)| <= |Dedup(RecentIds(rows[..i]), taken)| + 1
    ensures "" in Slice(Dedup(RecentIds(rows), taken), 0, limit)
  {
    assert RecentIds(rows[..i + 1]) == RecentIds(rows)[..i + 1];
    DedupPrefix(RecentIds(rows), taken, i + 1);
    var before, all := Dedup(RecentIds(rows[..i + 1]), taken), Dedup(RecentIds(rows), taken);
    var k :| 0 <= k < |before| && before[k] == "";
    assert all[k] == "" && k < limit;
    assert Slice(all, 0, limit)[k] == "";
  }

  /**
   For tables of any size: a page lists a market twice exactly if the list its queried rows give holds the empty id
   from the offset on, ends within the page, and the empty id is recent, after few enough other markets.
   */
  lemma DistinctPageIff(c: Catalog, ranking: seq<Row>, recent: seq<Row>, limit: nat, offset: nat)
    ensures var listed := Rest(Ideal(c, Queried(ranking, offset + limit)), offset);
      Distinct(FilledPage(c, ranking, recent, limit, offset)) <==>
      !("" in listed && EmptyIdFits(recent, limit - |listed|, listed))
  {
    PageItemsDistinct(c, ranking, recent, limit, offset);
    var listed := Rest(Ideal(c, Queried(ranking, offset + limit)), offset);
    var ranked := RankedPage(c, ranking, limit, offset);
    ShortListIsPage(Ideal(c, Queried(ranking, offset + limit)), limit, offset);
    if |ranked| < limit { EmptyIdFillsIff(recent, limit - |ranked|, ranked); }
  }

  lemma ShortListIsPage(s: seq<string>, limit: nat, offset: nat)
    ensures var page, rest := Slice(s, offset, offset + limit), Rest(s, offset);
      (|page| < limit <==> |rest| < limit) && (|rest| < limit ==> page == rest)
  {}

  method FillPage(c: Catalog, ranking: seq<Row>, recent: seq<Row>, limit: nat, offset: nat)
    returns (results: seq<string>)
    requires limit > 0
    ensures results == FilledPage(c, ranking, recent, limit, offset)
  {
    results := ActivityRankedMarkets(c, ranking, limit, offset);
    if |results| < limit {
      var more := RecentMarkets(recent, limit - |results|, results);
      results := results + more;
    }
  }

  /**
   The handler: the offset comes from the cursor if there is one; rank, fill up, and hand out a cursor to the next
   page when this one is full.
   */
  method GetMarkets(c: Catalog, ranking: seq<Row>, recent: seq<Row>, limit: nat, cursor: string, offsetParam: nat)
    returns (page: Page)
    requires limit > 0
    ensures var offset := if cursor != "" then Cursors.DecodeCursor(cursor) else offsetParam;
      && offset >= 0
      && page.data == FilledPage(c, ranking, recent, limit, offset)
      && page.hasMore == (|page.data| == limit)
      && (page.hasMore && offset + limit <= MAX_INT64 ==> Cursors.DecodeCursor(page.nextCursor) == offset + limit)
  {
    Cursors.DecodeCursorInRange(cursor);
    var offset := if cursor != "" then Cursors.DecodeCursor(cursor) else offsetParam;
    var results := FillPage(c, ranking, recent, limit, offset);
    var hasMore := |results| == limit;
    page := Page(results, hasMore, "");
    if hasMore {
      page := page.(nextCursor := Cursors.EncodeCursor(offset + limit));
      if offset + limit <= MAX_INT64 { Cursors.CursorRoundTrip(offset + limit); }
    }
  }
}
