/**
 The lookup indexes from token and condition ids to market ids: written key by key by two crawlers at once, read
 by the processor's and the API's resolvers.
 */
module MarketIndex {

  /** A discovered market; the last three fields are texts stored beside the index. */
  datatype Market = Market(id: string, condition: string, tokens: seq<string>,
                           extracted: string, metadata: string, raw: string)

  datatype Write = Set(key: string, value: string) | AddMarket(id: string)

  datatype Stored = Stored(values: map<string, string>, markets: set<string>)

  const EMPTY := Stored(map[], {})

  function TokenKey(token: string): string { "token:" + token + ":market_id" }
  function ConditionKey(condition: string): string { "condition:" + condition + ":market_id" }

  function ConditionWrite(m: Market): seq<Write> {
    if m.condition != "" then [Set(ConditionKey(m.condition), m.id)] else []
  }

  /** What `processMarket` writes, in order. */
  function ProcessWrites(m: Market): seq<Write> {
    if |m.tokens| < 2 then []
    else
      [Set("tokens:extracted:" + m.id, m.extracted), Set("market:" + m.id + ":tokens", m.extracted),
       Set(TokenKey(m.tokens[0]), m.id), Set(TokenKey(m.tokens[1]), m.id)] + ConditionWrite(m)
  }

  /** What `storeMarketMetadata` writes, in order. */
  function MetadataWrites(m: Market): seq<Write> {
    [Set("market:" + m.id + ":metadata", m.metadata), Set("market:" + m.id + ":metadata_raw", m.raw)]
    + ConditionWrite(m) + [AddMarket(m.id)]
  }

  function WritesOf(m: Market): seq<Write> { ProcessWrites(m) + MetadataWrites(m) }

  /** All writes of a crawler over the markets it fetches. */
  function CrawlWrites(ms: seq<Market>): seq<Write> {
    if ms == [] then [] else CrawlWrites(ms[..|ms| - 1]) + WritesOf(ms[|ms| - 1])
  }

  function Apply(s: Stored, w: Write): Stored {
    match w
    case Set(key, value) => s.(values := s.values[key := value])
    case AddMarket(id) => s.(markets := s.markets + {id})
  }

  function ApplyAll(s: Stored, ws: seq<Write>): Stored {
    if ws == [] then s else Apply(ApplyAll(s, ws[..|ws| - 1]), ws[|ws| - 1])
  }

  /** `ws` interleaves `a` and `b`. */
  predicate Interleaves(ws: seq<Write>, a: seq<Write>, b: seq<Write>) {
    if ws == [] then a == [] && b == []
    else
      var init, last := ws[..|ws| - 1], ws[|ws| - 1];
      || (a != [] && a[|a| - 1] == last && Interleaves(init, a[..|a| - 1], b))
      || (b != [] && b[|b| - 1] == last && Interleaves(init, a, b[..|b| - 1]))
  }

  // ---- Keys ----

  lemma KeysDiffer(t: string, u: string, id: string)
    ensures TokenKey(t) == TokenKey(u) ==> t == u
    ensures ConditionKey(t) == ConditionKey(u) ==> t == u
    ensures TokenKey(t) != ConditionKey(u)
    ensures TokenKey(t) != "tokens:extracted:" + id && ConditionKey(t) != "tokens:extracted:" + id
  {
    assert TokenKey(t)[6..|TokenKey(t)| - 10] == t && TokenKey(u)[6..|TokenKey(u)| - 10] == u;
    assert ConditionKey(t)[10..|ConditionKey(t)| - 10] == t && ConditionKey(u)[10..|ConditionKey(u)| - 10] == u;
    assert TokenKey(t)[0] == 't' && ConditionKey(u)[0] == ConditionKey(t)[0] == 'c';
    assert TokenKey(t)[5] == ':' && ("tokens:extracted:" + id)[5] == 's';
  }

  lemma MarketKeysDiffer(t: string, id: string, suffix: string)
    ensures TokenKey(t) != "market:" + id + suffix && ConditionKey(t) != "market:" + id + suffix
  {
    assert TokenKey(t)[0] == 't' && ConditionKey(t)[0] == 'c' && ("market:" + id + suffix)[0] == 'm';
  }

  // ---- Who is indexed ----

  predicate IndexesToken(m: Market, token: string) { |m.tokens| >= 2 && token in m.tokens[..2] }
  predicate IndexesCondition(m: Market, condition: string) { condition != "" && m.condition == condition }

  /** Each indexed token and each condition id belongs to one market. */
  ghost predicate Consistent(ms: seq<Market>) {
    forall i, j | 0 <= i < |ms| && 0 <= j < |ms| ::
      && (ms[i].condition != "" && ms[i].condition == ms[j].condition ==> ms[i].id == ms[j].id)
      && (forall t | IndexesToken(ms[i], t) && IndexesToken(ms[j], t) :: ms[i].id == ms[j].id)
  }

  /** The writes of a market, one by one. */
  lemma WritesOfMarket(m: Market, w: Write)
    ensures w in WritesOf(m) <==>
      || (|m.tokens| >= 2 && (|| w == Set("tokens:extracted:" + m.id, m.extracted)
                              || w == Set("market:" + m.id + ":tokens", m.extracted)
                              || w == Set(TokenKey(m.tokens[0]), m.id) || w == Set(TokenKey(m.tokens[1]), m.id)))
      || w == Set("market:" + m.id + ":metadata", m.metadata) || w == Set("market:" + m.id + ":metadata_raw", m.raw)
      || (m.condition != "" && w == Set(ConditionKey(m.condition), m.id))
      || w == AddMarket(m.id)
  {}

  lemma TokenWrites(m: Market, x: string, v: string)
    ensures Set(TokenKey(x), v) in WritesOf(m) <==> IndexesToken(m, x) && v == m.id
  {
    WritesOfMarket(m, Set(TokenKey(x), v));
    MarketKeysDiffer(x, m.id, ":tokens");
    MarketKeysDiffer(x, m.id, ":metadata");
    MarketKeysDiffer(x, m.id, ":metadata_raw");
    KeysDiffer(x, m.condition, m.id);
    if |m.tokens| >= 2 {
      KeysDiffer(x, m.tokens[0], m.id);
      KeysDiffer(x, m.tokens[1], m.id);
      assert m.tokens[..2] == [m.tokens[0], m.tokens[1]];
    }
  }

  lemma ConditionWrites(m: Market, x: string, v: string)
    ensures Set(ConditionKey(x), v) in WritesOf(m) <==> IndexesCondition(m, x) && v == m.id
  {
    WritesOfMarket(m, Set(ConditionKey(x), v));
    MarketKeysDiffer(x, m.id, ":tokens");
    MarketKeysDiffer(x, m.id, ":metadata");
    MarketKeysDiffer(x, m.id, ":metadata_raw");
    KeysDiffer(x, m.condition, m.id);
    if |m.tokens| >= 2 {
      KeysDiffer(m.tokens[0], x, m.id);
      KeysDiffer(m.tokens[1], x, m.id);
    }
  }

  lemma MarketWrites(m: Market, x: string)
    ensures AddMarket(x) in WritesOf(m) <==> x == m.id
  {}

  // ---- Sets of writes ----

  lemma {:induction false} CrawlHas(ms: seq<Market>, w: Write)
    ensures w in CrawlWrites(ms) <==> exists m | m in ms :: w in WritesOf(m)
  {
    if ms != [] {
      var init, last := ms[..|ms| - 1], ms[|ms| - 1];
      CrawlHas(init, w);
      assert ms == init + [last];
      assert w in CrawlWrites(ms) <==> w in CrawlWrites(init) || w in WritesOf(last);
      assert last in ms && forall m :: m in ms <==> m in init || m == last;
    }
  }

  lemma {:induction false} InterleavingHas(ws: seq<Write>, a: seq<Write>, b: seq<Write>, w: Write)
    requires Interleaves(ws, a, b)
    ensures w in ws <==> w in a || w in b
    decreases |ws|
  {
    if ws != [] {
      var init, last := ws[..|ws| - 1], ws[|ws| - 1];
      assert ws == init + [last];
      if a != [] && a[|a| - 1] == last && Interleaves(init, a[..|a| - 1], b) {
        InterleavingHas(init, a[..|a| - 1], b, w);
        assert a == a[..|a| - 1] + [last];
      } else {
        InterleavingHas(init, a, b[..|b| - 1], w);
        assert b == b[..|b| - 1] + [last];
      }
    }
  }

  /** A key that only ever gets one value holds it exactly when it was written, whatever the order. */
  lemma {:induction false} OneValue(ws: seq<Write>, key: string, v: string)
    requires forall x | Set(key, x) in ws :: x == v
    ensures var values := ApplyAll(EMPTY, ws).values;
      (key in values <==> Set(key, v) in ws) && (key in values ==> values[key] == v)
  {
    if ws != [] {
      var init, last := ws[..|ws| - 1], ws[|ws| - 1];
      assert ws == init + [last];
      assert last in ws;
      OneValue(init, key, v);
    }
  }

  lemma {:induction false} MarketsAdded(ws: seq<Write>, id: string)
    ensures id in ApplyAll(EMPTY, ws).markets <==> AddMarket(id) in ws
  {
    if ws != [] {
      MarketsAdded(ws[..|ws| - 1], id);
      assert ws == ws[..|ws| - 1] + [ws[|ws| - 1]];
    }
  }

  // ---- The final index ----

  /** An id and the index it is looked up in. */
  datatype Ref = TokenRef(token: string) | ConditionRef(condition: string)

  function KeyOf(r: Ref): string { if r.TokenRef? then TokenKey(r.token) else ConditionKey(r.condition) }

  predicate Indexes(m: Market, r: Ref) {
    if r.TokenRef? then IndexesToken(m, r.token) else IndexesCondition(m, r.condition)
  }

  lemma RefWrites(m: Market, r: Ref, v: string)
    ensures Set(KeyOf(r), v) in WritesOf(m) <==> Indexes(m, r) && v == m.id
  {
    if r.TokenRef? { TokenWrites(m, r.token, v); } else { ConditionWrites(m, r.condition, v); }
  }

  lemma OneOwner(ms: seq<Market>, m: Market, n: Market, r: Ref)
    requires Consistent(ms) && m in ms && n in ms && Indexes(m, r) && Indexes(n, r)
    ensures m.id == n.id
  {
    var i :| 0 <= i < |ms| && ms[i] == m;
    var j :| 0 <= j < |ms| && ms[j] == n;
    if r.TokenRef? {
      assert IndexesToken(ms[i], r.token) && IndexesToken(ms[j], r.token);
    }
  }

  /** What two crawlers leave behind: every indexed id maps to its market, and nothing else is indexed. */
  ghost predicate IndexOf(s: Stored, ms: seq<Market>) {
    && (forall m, r | m in ms && Indexes(m, r) :: KeyOf(r) in s.values && s.values[KeyOf(r)] == m.id)
    && (forall r: Ref | KeyOf(r) in s.values :: exists m | m in ms :: Indexes(m, r))
    && (forall id :: id in s.markets <==> exists m | m in ms :: m.id == id)
  }

  /** Any interleaving of the two crawlers' writes ends in the one index of their markets. */
  lemma {:induction false} AnyInterleavingIndexes(ws: seq<Write>, a: seq<Market>, b: seq<Market>)
    requires Interleaves(ws, CrawlWrites(a), CrawlWrites(b)) && Consistent(a + b)
    ensures IndexOf(ApplyAll(EMPTY, ws), a + b)
  {
    var s := ApplyAll(EMPTY, ws);
    forall m, r | m in a + b && Indexes(m, r) ensures KeyOf(r) in s.values && s.values[KeyOf(r)] == m.id {
      IndexedAt(ws, a, b, m, r);
    }
    forall r: Ref | KeyOf(r) in s.values ensures exists m | m in a + b :: Indexes(m, r) {
      if forall m | m in a + b :: !Indexes(m, r) {
        forall v ensures Set(KeyOf(r), v) !in ws { NotWritten(ws, a, b, r, v); }
        OneValue(ws, KeyOf(r), "");
      }
    }
    forall id ensures id in s.markets <==> exists m | m in a + b :: m.id == id { MarketsAt(ws, a, b, id); }
  }

  lemma {:induction false} WrittenBySome(ws: seq<Write>, a: seq<Market>, b: seq<Market>, w: Write)
    requires Interleaves(ws, CrawlWrites(a), CrawlWrites(b))
    ensures w in ws <==> exists m | m in a + b :: w in WritesOf(m)
  {
    InterleavingHas(ws, CrawlWrites(a), CrawlWrites(b), w);
    CrawlHas(a, w);
    CrawlHas(b, w);
    assert forall m: Market :: m in a + b <==> m in a || m in b;
  }

  lemma {:induction false} OnlyOwnersWrite(ws: seq<Write>, a: seq<Market>, b: seq<Market>, m: Market, r: Ref)
    requires Interleaves(ws, CrawlWrites(a), CrawlWrites(b)) && Consistent(a + b)
    requires m in a + b && Indexes(m, r)
    ensures forall x | Set(KeyOf(r), x) in ws :: x == m.id
  {
    forall x | Set(KeyOf(r), x) in ws ensures x == m.id {
      WrittenBySome(ws, a, b, Set(KeyOf(r), x));
      var n :| n in a + b && Set(KeyOf(r), x) in WritesOf(n);
      RefWrites(n, r, x);
      OneOwner(a + b, m, n, r);
    }
  }

  lemma {:induction false} IndexedAt(ws: seq<Write>, a: seq<Market>, b: seq<Market>, m: Market, r: Ref)
    requires Interleaves(ws, CrawlWrites(a), CrawlWrites(b)) && Consistent(a + b)
    requires m in a + b && Indexes(m, r)
    ensures var s := ApplyAll(EMPTY, ws); KeyOf(r) in s.values && s.values[KeyOf(r)] == m.id
  {
    RefWrites(m, r, m.id);
    WrittenBySome(ws, a, b, Set(KeyOf(r), m.id));
    OnlyOwnersWrite(ws, a, b, m, r);
    OneValue(ws, KeyOf(r), m.id);
  }

  lemma {:induction false} NotWritten(ws: seq<Write>, a: seq<Market>, b: seq<Market>, r: Ref, v: string)
    requires Interleaves(ws, CrawlWrites(a), CrawlWrites(b))
    requires forall m | m in a + b :: !Indexes(m, r)
    ensures Set(KeyOf(r), v) !in ws
  {
    WrittenBySome(ws, a, b, Set(KeyOf(r), v));
    forall m | m in a + b ensures Set(KeyOf(r), v) !in WritesOf(m) { RefWrites(m, r, v); }
  }

  lemma {:induction false} MarketsAt(ws: seq<Write>, a: seq<Market>, b: seq<Market>, id: string)
    requires Interleaves(ws, CrawlWrites(a), CrawlWrites(b))
    ensures id in ApplyAll(EMPTY, ws).markets <==> exists m | m in a + b :: m.id == id
  {
    MarketsAdded(ws, id);
    WrittenBySome(ws, a, b, AddMarket(id));
    forall m: Market ensures AddMarket(id) in WritesOf(m) <==> id == m.id { MarketWrites(m, id); }
  }

  /** Two interleavings of the same crawls leave the same indexes and the same set of markets. */
  lemma {:induction false} InterleavingsAgree(w1: seq<Write>, w2: seq<Write>, a: seq<Market>, b: seq<Market>,
                                              r: Ref)
    requires Interleaves(w1, CrawlWrites(a), CrawlWrites(b)) && Interleaves(w2, CrawlWrites(a), CrawlWrites(b))
    requires Consistent(a + b)
    ensures var s, t := ApplyAll(EMPTY, w1), ApplyAll(EMPTY, w2);
      && s.markets == t.markets
      && (KeyOf(r) in s.values <==> KeyOf(r) in t.values)
      && (KeyOf(r) in s.values ==> s.values[KeyOf(r)] == t.values[KeyOf(r)])
  {
    AnyInterleavingIndexes(w1, a, b);
    AnyInterleavingIndexes(w2, a, b);
    var s, t := ApplyAll(EMPTY, w1), ApplyAll(EMPTY, w2);
    forall id ensures id in s.markets <==> id in t.markets { MarketsAt(w1, a, b, id); MarketsAt(w2, a, b, id); }
    if KeyOf(r) in s.values || KeyOf(r) in t.values {
      var m :| m in a + b && Indexes(m, r);
    }
  }

  /** While the crawlers are still writing, a lookup finds nothing or already the right market. */
  lemma {:induction false} NeverMisleads(ws: seq<Write>, a: seq<Market>, b: seq<Market>, k: nat, r: Ref)
    requires Interleaves(ws, CrawlWrites(a), CrawlWrites(b)) && Consistent(a + b) && k <= |ws|
    ensures var s := ApplyAll(EMPTY, ws[..k]);
      && (forall m | m in a + b && Indexes(m, r) && KeyOf(r) in s.values :: s.values[KeyOf(r)] == m.id)
      && (KeyOf(r) in s.values ==> exists m | m in a + b :: Indexes(m, r))
  {
    var s := ApplyAll(EMPTY, ws[..k]);
    forall m | m in a + b && Indexes(m, r) && KeyOf(r) in s.values ensures s.values[KeyOf(r)] == m.id {
      OnlyOwnersWrite(ws, a, b, m, r);
      OneValue(ws[..k], KeyOf(r), m.id);
    }
    if KeyOf(r) in s.values && (forall m | m in a + b :: !Indexes(m, r)) {
      forall v ensures Set(KeyOf(r), v) !in ws { NotWritten(ws, a, b, r, v); }
      OneValue(ws[..k], KeyOf(r), "");
    }
  }

  // ---- What a listed market has been given ----

  /** A prefix of an interleaving interleaves prefixes. */
  lemma {:induction false} PrefixInterleaves(ws: seq<Write>, a: seq<Write>, b: seq<Write>, k: nat)
    returns (i: nat, j: nat)
    requires Interleaves(ws, a, b) && k <= |ws|
    ensures i <= |a| && j <= |b| && Interleaves(ws[..k], a[..i], b[..j])
    decreases |ws|
  {
    if k == |ws| {
      i, j := |a|, |b|;
      assert ws[..k] == ws && a[..i] == a && b[..j] == b;
    } else {
      var init, last := ws[..|ws| - 1], ws[|ws| - 1];
      assert init[..k] == ws[..k];
      if a != [] && a[|a| - 1] == last && Interleaves(init, a[..|a| - 1], b) {
        i, j := PrefixInterleaves(init, a[..|a| - 1], b, k);
        assert a[..|a| - 1][..i] == a[..i];
      } else {
        i, j := PrefixInterleaves(init, a, b[..|b| - 1], k);
        assert b[..|b| - 1][..j] == b[..j];
      }
    }
  }

  /** All writes of some market with this id are among them. */
  predicate Complete(ws: seq<Write>, ms: seq<Market>, id: string) {
    exists m | m in ms :: m.id == id && forall w | w in WritesOf(m) :: w in ws
  }

  /** The market set is written last: a crawler that has listed an id has made all writes of a market with it. */
  lemma {:induction false} ListedLast(ms: seq<Market>, i: nat, id: string)
    requires i <= |CrawlWrites(ms)| && AddMarket(id) in CrawlWrites(ms)[..i]
    ensures Complete(CrawlWrites(ms)[..i], ms, id)
  {
    var init, last := ms[..|ms| - 1], ms[|ms| - 1];
    var before := CrawlWrites(init);
    var n := if i <= |before| then i else |before|;
    SplitPrefix(before, WritesOf(last), i, n);
    assert ms == init + [last];
    if AddMarket(id) in before[..n] {
      ListedLast(init, n, id);
      MoreIsComplete(before[..n], CrawlWrites(ms)[..i], init, ms, id);
    } else {
      LastIsComplete(last, i - n, id);
      LastCompletes(CrawlWrites(ms)[..i], last, ms);
    }
  }

  lemma SplitPrefix(a: seq<Write>, b: seq<Write>, i: nat, n: nat)
    requires i <= |a + b| && n == if i <= |a| then i else |a|
    ensures (a + b)[..i] == a[..n] + b[..i - n]
  {}

  lemma LastCompletes(ws: seq<Write>, m: Market, ms: seq<Market>)
    requires m in ms && forall w | w in WritesOf(m) :: w in ws
    ensures Complete(ws, ms, m.id)
  {}

  lemma MoreIsComplete(ws: seq<Write>, more: seq<Write>, ms: seq<Market>, ns: seq<Market>, id: string)
    requires Complete(ws, ms, id) && (forall w | w in ws :: w in more) && forall m | m in ms :: m in ns
    ensures Complete(more, ns, id)
  {
    var m :| m in ms && m.id == id && forall w | w in WritesOf(m) :: w in ws;
    assert m in ns && forall w | w in WritesOf(m) :: w in more;
  }

  lemma LastIsComplete(m: Market, i: nat, id: string)
    requires i <= |WritesOf(m)| && AddMarket(id) in WritesOf(m)[..i]
    ensures m.id == id && WritesOf(m)[..i] == WritesOf(m)
  {
    var k :| 0 <= k < i && WritesOf(m)[k] == AddMarket(id);
    OnlyLastLists(m, k);
  }

  lemma OnlyLastLists(m: Market, k: nat)
    requires k < |WritesOf(m)| && WritesOf(m)[k].AddMarket?
    ensures k == |WritesOf(m)| - 1 && WritesOf(m)[k].id == m.id
  {
    assert forall w | w in ProcessWrites(m) :: w.Set?;
    assert forall w | w in ConditionWrite(m) :: w.Set?;
  }

  /**
   At any moment of any interleaving, a listed market is indexed: with every id in the market set goes a market of
   that id whose token and condition ids already lead to it.
   */
  lemma {:induction false} ListedIsIndexed(ws: seq<Write>, a: seq<Market>, b: seq<Market>, k: nat, id: string)
    requires Interleaves(ws, CrawlWrites(a), CrawlWrites(b)) && Consistent(a + b) && k <= |ws|
    requires id in ApplyAll(EMPTY, ws[..k]).markets
    ensures exists m | m in a + b :: m.id == id && IndexedIn(ApplyAll(EMPTY, ws[..k]), m)
  {
    MarketsAdded(ws[..k], id);
    var i, j := PrefixInterleaves(ws, CrawlWrites(a), CrawlWrites(b), k);
    var wa, wb := CrawlWrites(a)[..i], CrawlWrites(b)[..j];
    forall w ensures w in ws[..k] <==> w in wa || w in wb { InterleavingHas(ws[..k], wa, wb, w); }
    if AddMarket(id) in wa {
      ListedLast(a, i, id);
      MoreIsComplete(wa, ws[..k], a, a + b, id);
    } else {
      ListedLast(b, j, id);
      MoreIsComplete(wb, ws[..k], b, a + b, id);
    }
    var m :| m in a + b && m.id == id && forall w | w in WritesOf(m) :: w in ws[..k];
    forall r: Ref | Indexes(m, r)
      ensures KeyOf(r) in ApplyAll(EMPTY, ws[..k]).values && ApplyAll(EMPTY, ws[..k]).values[KeyOf(r)] == m.id
    {
      RefWrites(m, r, m.id);
      OnlyOwnersWrite(ws, a, b, m, r);
      OneValue(ws[..k], KeyOf(r), m.id);
    }
    assert IndexedIn(ApplyAll(EMPTY, ws[..k]), m);
  }

  ghost predicate IndexedIn(s: Stored, m: Market) {
    forall r: Ref | Indexes(m, r) :: KeyOf(r) in s.values && s.values[KeyOf(r)] == m.id
  }

  // ---- The resolvers ----

  /** A missing key and an empty value are treated alike. */
  function Get(s: Stored, key: string): string { if key in s.values then s.values[key] else "" }

  /** The processor's resolver: by condition reference, then by token, else the reference itself. */
  function ProcessorResolve(s: Stored, marketRef: string, token: string): string {
    if marketRef != "" && Get(s, ConditionKey(marketRef)) != "" then Get(s, ConditionKey(marketRef))
    else if token != "" && Get(s, TokenKey(token)) != "" then Get(s, TokenKey(token))
    else marketRef
  }

  predicate HexPrefixed(x: string) { "0x" <= x }

  /** The API's resolver: a known market, then a 0x-prefixed condition, then a token, else the id itself. */
  function ApiResolve(s: Stored, x: string): string {
    if x == "" then ""
    else if x in s.markets then x
    else if HexPrefixed(x) && Get(s, ConditionKey(x)) != "" then Get(s, ConditionKey(x))
    else if Get(s, TokenKey(x)) != "" then Get(s, TokenKey(x))
    else x
  }

  /**
   The processor finds a market by its condition id with any token, and by its tokens unless the reference is the
   condition id of a market with another, nonempty id.
   */
  lemma ProcessorFindsMarket(s: Stored, ms: seq<Market>, m: Market, marketRef: string, token: string)
    requires IndexOf(s, ms) && m in ms && m.id != ""
    ensures Indexes(m, ConditionRef(marketRef)) ==> ProcessorResolve(s, marketRef, token) == m.id
    ensures token != "" && IndexesToken(m, token) ==>
      (ProcessorResolve(s, marketRef, token) == m.id <==>
        !(exists n | n in ms :: IndexesCondition(n, marketRef) && n.id != "" && n.id != m.id))
  {
    assert KeyOf(ConditionRef(marketRef)) == ConditionKey(marketRef) && KeyOf(TokenRef(token)) == TokenKey(token);
    if Indexes(m, ConditionRef(marketRef)) { assert s.values[ConditionKey(marketRef)] == m.id; }
    if IndexesToken(m, token) {
      assert Indexes(m, TokenRef(token)) && s.values[TokenKey(token)] == m.id;
    }
    if ConditionKey(marketRef) in s.values {
      var n :| n in ms && Indexes(n, ConditionRef(marketRef));
      assert s.values[ConditionKey(marketRef)] == n.id;
    }
    forall n | n in ms && IndexesCondition(n, marketRef) ensures Get(s, ConditionKey(marketRef)) == n.id {
      assert Indexes(n, ConditionRef(marketRef));
    }
  }

  /** The API finds a market by its 0x-prefixed condition id, unless that text is itself another market's id. */
  lemma ApiFindsCondition(s: Stored, ms: seq<Market>, m: Market)
    requires IndexOf(s, ms) && m in ms && m.id != "" && HexPrefixed(m.condition)
    ensures ApiResolve(s, m.condition) == m.id <==> m.condition !in s.markets || m.condition == m.id
  {
    assert Indexes(m, ConditionRef(m.condition));
    assert KeyOf(ConditionRef(m.condition)) == ConditionKey(m.condition);
  }

  /**
   The API finds a market by a token, unless that text is another market's id, or a 0x-prefixed condition id of a
   market with another, nonempty id.
   */
  lemma ApiFindsToken(s: Stored, ms: seq<Market>, m: Market, token: string)
    requires IndexOf(s, ms) && m in ms && m.id != "" && token != "" && IndexesToken(m, token)
    ensures ApiResolve(s, token) == m.id <==>
      if token in s.markets then token == m.id
      else !(exists n | n in ms :: HexPrefixed(token) && IndexesCondition(n, token) && n.id != "" && n.id != m.id)
  {
    assert Indexes(m, TokenRef(token)) && KeyOf(TokenRef(token)) == TokenKey(token);
    assert KeyOf(ConditionRef(token)) == ConditionKey(token);
    if HexPrefixed(token) && ConditionKey(token) in s.values {
      var n :| n in ms && Indexes(n, ConditionRef(token));
      assert s.values[ConditionKey(token)] == n.id;
    }
    forall n | n in ms && IndexesCondition(n, token) ensures Get(s, ConditionKey(token)) == n.id {
      assert Indexes(n, ConditionRef(token));
    }
  }

  /** A reference or an id that nothing indexes resolves to itself. */
  lemma UnknownStays(s: Stored, ms: seq<Market>, x: string, token: string)
    requires IndexOf(s, ms)
    requires forall m | m in ms ::
      m.id != x && !IndexesCondition(m, x) && !IndexesToken(m, x) && !IndexesToken(m, token)
    ensures ProcessorResolve(s, x, token) == x && ApiResolve(s, x) == x
  {
    assert KeyOf(ConditionRef(x)) == ConditionKey(x);
    assert KeyOf(TokenRef(x)) == TokenKey(x) && KeyOf(TokenRef(token)) == TokenKey(token);
  }

  /** A known market id resolves to itself, even if it is also a token or a condition id. */
  lemma KnownStays(s: Stored, ms: seq<Market>, m: Market)
    requires IndexOf(s, ms) && m in ms
    ensures ApiResolve(s, m.id) == m.id
  {}

  /** Once every market's writes have finished, resolving twice is resolving once. */
  lemma ApiResolveIdempotent(s: Stored, ms: seq<Market>, x: string)
    requires IndexOf(s, ms)
    ensures ApiResolve(s, ApiResolve(s, x)) == ApiResolve(s, x)
  {
    assert KeyOf(ConditionRef(x)) == ConditionKey(x) && KeyOf(TokenRef(x)) == TokenKey(x);
    if ConditionKey(x) in s.values {
      var m :| m in ms && Indexes(m, ConditionRef(x));
      assert s.values[ConditionKey(x)] == m.id && m.id in s.markets;
    }
    if TokenKey(x) in s.values {
      var m :| m in ms && Indexes(m, TokenRef(x));
      assert s.values[TokenKey(x)] == m.id && m.id in s.markets;
    }
  }

  // ---- The crawlers ----

  class Redis {
    var values: map<string, string>
    var markets: set<string>

    constructor ()
      ensures View() == EMPTY
    {
      values, markets := map[], {};
    }

    ghost function View(): Stored
      reads this
    {
      Stored(values, markets)
    }

    /** One write; `done` is the log of the writes so far since state `s`. */
    method Put(key: string, value: string, ghost s: Stored, ghost done: seq<Write>) returns (ghost log: seq<Write>)
      requires View() == ApplyAll(s, done)
      modifies this`values
      ensures log == done + [Set(key, value)] && View() == ApplyAll(s, log)
    {
      values := values[key := value];
      log := done + [Set(key, value)];
      assert log[..|done|] == done;
    }

    method ProcessMarket(m: Market)
      modifies this
      ensures View() == ApplyAll(old(View()), ProcessWrites(m))
    {
      if |m.tokens| < 2 { return; }
      ghost var s, log := View(), [];
      log := Put("tokens:extracted:" + m.id, m.extracted, s, log);
      log := Put("market:" + m.id + ":tokens", m.extracted, s, log);
      log := Put(TokenKey(m.tokens[0]), m.id, s, log);
      log := Put(TokenKey(m.tokens[1]), m.id, s, log);
      if m.condition != "" { log := Put(ConditionKey(m.condition), m.id, s, log); }
      assert log == ProcessWrites(m);
    }

    method StoreMarketMetadata(m: Market)
      modifies this
      ensures View() == ApplyAll(old(View()), MetadataWrites(m))
    {
      ghost var s, log := View(), [];
      log := Put("market:" + m.id + ":metadata", m.metadata, s, log);
      log := Put("market:" + m.id + ":metadata_raw", m.raw, s, log);
      if m.condition != "" { log := Put(ConditionKey(m.condition), m.id, s, log); }
      markets := markets + {m.id};
      assert MetadataWrites(m) == log + [AddMarket(m.id)];
      assert MetadataWrites(m)[..|log|] == log;
    }

    method Store(m: Market)
      modifies this
      ensures View() == ApplyAll(old(View()), WritesOf(m))
    {
      ghost var s := View();
      ProcessMarket(m);
      StoreMarketMetadata(m);
      ApplyAllConcat(s, ProcessWrites(m), MetadataWrites(m));
    }

    /** One crawler on its own. */
    method Crawl(ms: seq<Market>)
      modifies this
      ensures View() == ApplyAll(old(View()), CrawlWrites(ms))
    {
      ghost var s := View();
      for i := 0 to |ms|
        invariant View() == ApplyAll(s, CrawlWrites(ms[..i]))
      {
        Store(ms[i]);
        ApplyAllConcat(s, CrawlWrites(ms[..i]), WritesOf(ms[i]));
        assert ms[..i + 1][..i] == ms[..i];
      }
      assert ms[..|ms|] == ms;
    }
  }

  lemma {:induction false} ApplyAllConcat(s: Stored, a: seq<Write>, b: seq<Write>)
    ensures ApplyAll(s, a + b) == ApplyAll(ApplyAll(s, a), b)
  {
    if b == [] {
      assert a + b == a;
    } else {
      assert (a + b)[..|a + b| - 1] == a + b[..|b| - 1];
      ApplyAllConcat(s, a, b[..|b| - 1]);
    }
  }
}
