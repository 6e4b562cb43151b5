/**
 The round-robin rotation over a pool of RPC endpoints, with cooldowns.  A rotation is described by the
 number of pool entries scanned so far: the source's `idx` is that number modulo the pool size.
 Times are in seconds.
 */
module RpcRotation {

  const COOLDOWN := 120

  type Url = string

  datatype State = State(scanned: nat, benched: map<Url, int>, current: nat)

  /** The indexer loop: pick an endpoint; its cycle ends, in failure or cleanly. */
  datatype Event = Pick(now: int) | Fail(now: int) | End(now: int)

  const INIT := State(0, map[], 0)

  predicate Unbenched(s: State, url: Url, now: int) { url !in s.benched || now > s.benched[url] }

  predicate AllBenched(pool: seq<Url>, s: State, now: int) {
    forall i | 0 <= i < |pool| :: !Unbenched(s, pool[i], now)
  }

  /** From scan position `p`, the first of at most `fuel` positions whose endpoint is not benched. */
  function Scan(pool: seq<Url>, s: State, now: int, p: nat, fuel: nat): (r: nat)
    requires pool != []
    ensures p <= r <= p + fuel
    ensures r < p + fuel ==> Unbenched(s, pool[r % |pool|], now)
    ensures forall q: nat | p <= q < r :: !Unbenched(s, pool[q % |pool|], now)
    decreases fuel
  {
    if fuel == 0 || Unbenched(s, pool[p % |pool|], now) then p else Scan(pool, s, now, p + 1, fuel - 1)
  }

  /** What a pick at `now` yields: the pool index, and whether nothing was available. */
  datatype Picked = Picked(index: nat, fallback: bool, scanned: nat)

  function PickAt(pool: seq<Url>, s: State, now: int): (r: Picked)
    requires pool != []
    ensures r.index < |pool| && s.scanned < r.scanned <= s.scanned + |pool|
    ensures !r.fallback ==> r.index == (r.scanned - 1) % |pool|
  {
    var p := Scan(pool, s, now, s.scanned, |pool|);
    if p < s.scanned + |pool| then Picked(p % |pool|, false, p + 1)
    else Picked(s.scanned % |pool|, true, s.scanned + |pool|)
  }

  function Next(pool: seq<Url>, s: State, e: Event): (r: State)
    requires s.current < |pool|
    ensures r.current < |pool|
  {
    match e
    case Pick(now) => var r := PickAt(pool, s, now); s.(scanned := r.scanned, current := r.index)
    case Fail(now) => s.(benched := s.benched[pool[s.current] := now + COOLDOWN])
    case End(_) => s
  }

  function Run(pool: seq<Url>, es: seq<Event>): (s: State)
    requires pool != []
    ensures s.current < |pool|
  {
    if es == [] then INIT else Next(pool, Run(pool, es[..|es| - 1]), es[|es| - 1])
  }

  predicate Monotone(es: seq<Event>) { forall i, j | 0 <= i < j < |es| :: es[i].now <= es[j].now }

  // ---- Remainders ----

  lemma AtLeastOnce(k: int, n: nat)
    requires k >= 1
    ensures k * n >= n
  {
    assert (k - 1) * n >= 0;
    assert k * n == (k - 1) * n + n;
  }

  lemma RemainderIs(v: int, a: int, r: int, n: nat)
    requires 0 <= r < n && v == a * n + r
    ensures v % n == r
  {
    var a' := v / n;
    assert v == a' * n + v % n;
    assert (a' - a) * n == a' * n - a * n == -((a - a') * n);
    if a' > a { AtLeastOnce(a' - a, n); } else if a' < a { AtLeastOnce(a - a', n); }
  }

  lemma SmallStep(x: nat, d: nat, n: nat)
    requires n > 0 && d <= n
    ensures (x + d) % n == if x % n + d < n then x % n + d else x % n + d - n
  {
    var a, v := x / n, x % n + d;
    assert x == a * n + x % n;
    if v < n {
      RemainderIs(x + d, a, v, n);
    } else {
      assert (a + 1) * n == a * n + n;
      RemainderIs(x + d, a + 1, v - n, n);
    }
  }

  lemma NextRemainder(x: nat, n: nat)
    requires n > 0
    ensures (x % n + 1) % n == (x + 1) % n
  {
    SmallStep(x, 1, n);
    SmallStep(x % n, 1, n);
    RemainderIs(x % n, 0, x % n, n);
  }

  /** Two different numbers with one remainder are at least `n` apart, and every remainder occurs in between. */
  lemma EveryRemainderBetween(x: nat, y: nat, n: nat, j: nat) returns (q: nat)
    requires n > 0 && x < y && x % n == y % n && j < n
    ensures x < q <= y && q % n == j
  {
    if y - x < n { SmallStep(x, y - x, n); }
    var d := if x % n < j then j - x % n else j - x % n + n;
    SmallStep(x, d, n);
    q := x + d;
  }

  // ---- Fairness ----

  lemma {:induction false} ScannedGrows(pool: seq<Url>, es: seq<Event>, n: nat)
    requires pool != [] && n <= |es|
    ensures Run(pool, es[..n]).scanned <= Run(pool, es).scanned
  {
    if n == |es| {
      assert es[..n] == es;
    } else {
      var es' := es[..|es| - 1];
      assert es'[..n] == es[..n];
      ScannedGrows(pool, es', n);
    }
  }

  /** Position `q`, scanned between steps `lo` and `hi`, was scanned by one of the picks in between. */
  lemma {:induction false} ScannedBy(pool: seq<Url>, es: seq<Event>, lo: nat, hi: nat, q: nat) returns (m: nat)
    requires pool != [] && lo <= hi <= |es|
    requires ScannedUpTo(pool, es, lo) <= q < ScannedUpTo(pool, es, hi)
    ensures lo <= m < hi && ScansAt(pool, es, m, q)
  {
    m := hi - 1;
    if ScannedUpTo(pool, es, m) > q {
      m := ScannedBy(pool, es, lo, m, q);
    } else {
      LastStepScans(pool, es, m, q);
    }
  }

  function ScannedUpTo(pool: seq<Url>, es: seq<Event>, n: nat): nat
    requires pool != [] && n <= |es|
  {
    Run(pool, es[..n]).scanned
  }

  lemma LastStepScans(pool: seq<Url>, es: seq<Event>, m: nat, q: nat)
    requires pool != [] && m < |es| && ScannedUpTo(pool, es, m) <= q < ScannedUpTo(pool, es, m + 1)
    ensures ScansAt(pool, es, m, q)
  {
    RunStep(pool, es, m);
    OnlyPicksScan(pool, Run(pool, es[..m]), es[m]);
  }

  lemma RunStep(pool: seq<Url>, es: seq<Event>, m: nat)
    requires pool != [] && m < |es|
    ensures Run(pool, es[..m + 1]) == Next(pool, Run(pool, es[..m]), es[m])
  {
    assert es[..m + 1][..m] == es[..m];
  }

  lemma OnlyPicksScan(pool: seq<Url>, s: State, e: Event)
    requires s.current < |pool| && Next(pool, s, e).scanned > s.scanned
    ensures e.Pick? && Next(pool, s, e).scanned == PickAt(pool, s, e.now).scanned
  {}

  /** The pick made by step `m` of the run. */
  function PickOf(pool: seq<Url>, es: seq<Event>, m: nat): Picked
    requires pool != [] && m < |es| && es[m].Pick?
  {
    PickAt(pool, Run(pool, es[..m]), es[m].now)
  }

  /** If step `m` is a pick, entry `j` is not benched then. */
  predicate FreeAt(pool: seq<Url>, es: seq<Event>, j: nat, m: nat)
    requires j < |pool| && m < |es|
  {
    es[m].Pick? ==> Unbenched(Run(pool, es[..m]), pool[j], es[m].now)
  }

  /** Step `m` is a regular pick of entry `j`. */
  predicate Picks(pool: seq<Url>, es: seq<Event>, j: nat, m: nat)
    requires pool != [] && m < |es|
  {
    es[m].Pick? && PickOf(pool, es, m).index == j && !PickOf(pool, es, m).fallback
  }

  /**
   Round-robin fairness: between two regular picks of the same pool entry, every entry whose endpoint was
   unbenched at all the picks after the first one was picked as well.
   */
  lemma Fairness(pool: seq<Url>, es: seq<Event>, a: nat, b: nat, j: nat)
    requires pool != [] && a < b < |es| && j < |pool|
    requires exists i :: Picks(pool, es, i, a) && Picks(pool, es, i, b)
    requires forall m | a < m <= b :: FreeAt(pool, es, j, m)
    ensures exists m :: a < m <= b && Picks(pool, es, j, m)
  {
    var i :| Picks(pool, es, i, a) && Picks(pool, es, i, b);
    PicksAdvance(pool, es, a, b);
    var q := PositionBetween(PickOf(pool, es, a), PickOf(pool, es, b), |pool|, j);
    var m := PickedBetween(pool, es, a, b, q, j);
  }

  /** Between two regular picks of one entry every entry has a scan position. */
  lemma PositionBetween(p: Picked, r: Picked, n: nat, j: nat) returns (q: nat)
    requires 0 < p.scanned < r.scanned && j < n && p.index == r.index
    requires p.index == (p.scanned - 1) % n && r.index == (r.scanned - 1) % n
    ensures p.scanned <= q < r.scanned && q % n == j
  {
    q := EveryRemainderBetween(p.scanned - 1, r.scanned - 1, n, j);
  }

  /** Entry `j`, at a position scanned after pick `a`, up to pick `b`, was picked if unbenched throughout. */
  lemma PickedBetween(pool: seq<Url>, es: seq<Event>, a: nat, b: nat, q: nat, j: nat) returns (m: nat)
    requires pool != [] && a < b < |es| && es[a].Pick? && es[b].Pick? && j == q % |pool|
    requires PickOf(pool, es, a).scanned <= q < PickOf(pool, es, b).scanned
    requires forall m | a < m <= b :: FreeAt(pool, es, j, m)
    ensures a < m <= b && Picks(pool, es, j, m)
  {
    m := ScannedBetween(pool, es, a, b, q);
    PickedWhenScanned(pool, es, m, q, j);
  }

  /** The pick made by step `m` scans position `q`. */
  predicate ScansAt(pool: seq<Url>, es: seq<Event>, m: nat, q: nat)
    requires pool != [] && m < |es|
  {
    es[m].Pick? && Run(pool, es[..m]).scanned <= q < PickOf(pool, es, m).scanned
  }

  lemma ScannedBetween(pool: seq<Url>, es: seq<Event>, a: nat, b: nat, q: nat) returns (m: nat)
    requires pool != [] && a < b < |es| && es[a].Pick? && es[b].Pick?
    requires PickOf(pool, es, a).scanned <= q < PickOf(pool, es, b).scanned
    ensures a < m <= b && ScansAt(pool, es, m, q)
  {
    RunAfterPick(pool, es, a);
    RunAfterPick(pool, es, b);
    m := ScannedBy(pool, es, a + 1, b + 1, q);
  }

  lemma PickedWhenScanned(pool: seq<Url>, es: seq<Event>, m: nat, q: nat, j: nat)
    requires pool != [] && m < |es| && ScansAt(pool, es, m, q) && j == q % |pool| && FreeAt(pool, es, j, m)
    ensures Picks(pool, es, j, m)
  {
    PickOfScannedFree(pool, Run(pool, es[..m]), es[m].now, q);
  }

  lemma PicksAdvance(pool: seq<Url>, es: seq<Event>, a: nat, b: nat)
    requires pool != [] && a < b < |es| && es[a].Pick? && es[b].Pick?
    ensures PickOf(pool, es, a).scanned < PickOf(pool, es, b).scanned
  {
    RunAfterPick(pool, es, a);
    RunAfterPick(pool, es, b);
    assert es[..b][..a + 1] == es[..a + 1];
    ScannedGrows(pool, es[..b], a + 1);
  }

  lemma RunAfterPick(pool: seq<Url>, es: seq<Event>, m: nat)
    requires pool != [] && m < |es| && es[m].Pick?
    ensures Run(pool, es[..m + 1]).scanned == PickOf(pool, es, m).scanned
    ensures Run(pool, es[..m]).scanned < PickOf(pool, es, m).scanned
  {
    RunStep(pool, es, m);
  }

  ghost predicate AllScanned(pool: seq<Url>, s: State, now: int, p: nat)
    requires pool != []
  {
    forall q: nat | s.scanned <= q < p :: !Unbenched(s, pool[q % |pool|], now)
  }

  lemma NothingFree(pool: seq<Url>, s: State, now: int)
    requires pool != [] && AllScanned(pool, s, now, s.scanned + |pool|)
    ensures PickAt(pool, s, now) == Picked(s.scanned % |pool|, true, s.scanned + |pool|)
  {}

  /** A pick that scans a position whose endpoint is free returns it. */
  lemma PickOfScannedFree(pool: seq<Url>, s: State, now: int, q: nat)
    requires pool != [] && s.scanned <= q < s.scanned + |pool|
    requires q < PickAt(pool, s, now).scanned || AllScanned(pool, s, now, q)
    requires Unbenched(s, pool[q % |pool|], now)
    ensures PickAt(pool, s, now) == Picked(q % |pool|, false, q + 1)
  {}

  // ---- Cooldowns ----

  /** Bench deadlines are never more than a cooldown away. */
  lemma {:induction false} DeadlinesAreNear(pool: seq<Url>, es: seq<Event>, url: Url)
    requires pool != [] && Monotone(es) && url in Run(pool, es).benched
    ensures es != [] && Run(pool, es).benched[url] <= es[|es| - 1].now + COOLDOWN
  {
    var es', e := es[..|es| - 1], es[|es| - 1];
    if url in Run(pool, es').benched {
      DeadlinesAreNear(pool, es', url);
      assert es'[|es'| - 1].now <= e.now;
    }
  }

  /** The deadline of an endpoint never moves earlier. */
  lemma {:induction false} DeadlinesGrow(pool: seq<Url>, es: seq<Event>, n: nat, url: Url)
    requires pool != [] && Monotone(es) && n <= |es| && url in Run(pool, es[..n]).benched
    ensures url in Run(pool, es).benched
    ensures Run(pool, es[..n]).benched[url] <= Run(pool, es).benched[url]
  {
    if n < |es| {
      var es' := es[..|es| - 1];
      assert es'[..n] == es[..n];
      DeadlinesGrow(pool, es', n, url);
      DeadlinesAreNear(pool, es', url);
      assert es'[|es'| - 1].now <= es[|es| - 1].now;
    } else {
      assert es[..n] == es;
    }
  }

  /** An endpoint whose cycle failed at time t is not picked until after t + 2 minutes, unless all are benched. */
  lemma CooldownRespected(pool: seq<Url>, es: seq<Event>, a: nat, b: nat)
    requires pool != [] && Monotone(es) && a < b < |es| && es[a].Fail? && es[b].Pick?
    requires pool[PickOf(pool, es, b).index] == pool[Run(pool, es[..a]).current]
    requires es[b].now <= es[a].now + COOLDOWN
    ensures AllBenched(pool, Run(pool, es[..b]), es[b].now)
  {
    var url := pool[Run(pool, es[..a]).current];
    assert es[..a + 1][..a] == es[..a];
    assert es[..b][..a + 1] == es[..a + 1];
    DeadlinesGrow(pool, es[..b], a + 1, url);
    FallbackMeansAllBenched(pool, Run(pool, es[..b]), es[b].now);
  }

  /** Step `p` is the last pick before step `n`: its endpoint is the one in use. */
  predicate LastPickBefore(es: seq<Event>, p: nat, n: nat) {
    p < n <= |es| && es[p].Pick? && forall k | p < k < n :: !es[k].Pick?
  }

  lemma {:induction false} InUse(pool: seq<Url>, es: seq<Event>, p: nat, n: nat)
    requires pool != [] && LastPickBefore(es, p, n)
    ensures Run(pool, es[..n]).current == PickOf(pool, es, p).index
  {
    RunStep(pool, es, n - 1);
    if p < n - 1 { InUse(pool, es, p, n - 1); }
  }

  /** A benched endpoint is so by the failure of a cycle of its own, and until two minutes after it. */
  lemma {:induction false} BenchedByFailure(pool: seq<Url>, es: seq<Event>, url: Url) returns (a: nat)
    requires pool != [] && url in Run(pool, es).benched
    ensures a < |es| && es[a].Fail? && Run(pool, es).benched[url] == es[a].now + 120
    ensures pool[Run(pool, es[..a]).current] == url
  {
    var last := |es| - 1;
    if es[last].Fail? && pool[Run(pool, es[..last]).current] == url {
      a := last;
    } else {
      a := BenchedByFailure(pool, es[..last], url);
      assert es[..last][..a] == es[..a];
    }
  }

  /**
   An endpoint picked at step `p` whose cycle fails at step `a` rests: a later pick of the same endpoint within two
   minutes happens only if the whole pool is benched.
   */
  lemma FailedEndpointRests(pool: seq<Url>, es: seq<Event>, p: nat, a: nat, b: nat)
    requires pool != [] && Monotone(es) && LastPickBefore(es, p, a) && a < b < |es| && es[a].Fail? && es[b].Pick?
    requires pool[PickOf(pool, es, b).index] == pool[PickOf(pool, es, p).index]
    requires es[b].now <= es[a].now + 120
    ensures AllBenched(pool, Run(pool, es[..b]), es[b].now)
  {
    InUse(pool, es, p, a);
    CooldownRespected(pool, es, a, b);
  }

  lemma FallbackMeansAllBenched(pool: seq<Url>, s: State, now: int)
    requires pool != []
    ensures PickAt(pool, s, now).fallback <==> AllBenched(pool, s, now)
    ensures !PickAt(pool, s, now).fallback ==> Unbenched(s, pool[PickAt(pool, s, now).index], now)
  {
    var n := |pool|;
    if PickAt(pool, s, now).fallback {
      forall i | 0 <= i < n ensures !Unbenched(s, pool[i], now) {
        SmallStep(s.scanned, n, n);
        var q := EveryRemainderBetween(s.scanned, s.scanned + n, n, i);
        if q == s.scanned + n { assert q % n == s.scanned % n; }
      }
    }
  }

  // ---- The rotator ----

  class RpcRotator {
    const urls: seq<Url>
    var idx: nat
    var benched: map<Url, int>
    ghost var scanned: nat
    ghost var current: nat

    ghost predicate Valid()
      reads this
    {
      urls != [] && idx == scanned % |urls| && current < |urls|
    }

    ghost function View(): State
      reads this
    {
      State(scanned, benched, current)
    }

    constructor (urls: seq<Url>)
      requires urls != []
      ensures Valid() && this.urls == urls && View() == INIT
    {
      this.urls, idx, benched, scanned, current := urls, 0, map[], 0, 0;
    }

    /**
     The first unbenched endpoint in cyclic order from `idx`.  When every endpoint is benched, the one at
     `idx`, which the full scan leaves where it was.
     */
    method Pick(now: int) returns (url: Url)
      requires Valid()
      modifies this
      ensures Valid() && View() == Next(urls, old(View()), Event.Pick(now))
      ensures url == urls[PickAt(urls, old(View()), now).index]
      ensures AllBenched(urls, old(View()), now) ==> idx == old(idx) && url == urls[idx]
    {
      ghost var s := View();
      FallbackMeansAllBenched(urls, s, now);
      for i := 0 to |urls|
        invariant idx == scanned % |urls| && scanned == s.scanned + i
        invariant benched == s.benched && current == s.current
        invariant AllScanned(urls, s, now, scanned)
      {
        url := urls[idx];
        NextRemainder(scanned, |urls|);
        idx := (idx + 1) % |urls|;
        scanned := scanned + 1;
        if url !in benched || now > benched[url] {
          PickOfScannedFree(urls, s, now, scanned - 1);
          current := (scanned - 1) % |urls|;
          return;
        }
      }
      SmallStep(s.scanned, |urls|, |urls|);
      NothingFree(urls, s, now);
      url := urls[idx];
      current := idx;
    }

    /**
     Takes an endpoint out of rotation, until its cooldown is over, and no other.  If that endpoint was the last
     pick this is the step of a failed cycle; and no deadline moves earlier if none was further away than this one.
     */
    method Bench(url: Url, now: int, cooldown: int)
      modifies this`benched
      ensures View() == old(View()).(benched := old(benched)[url := now + cooldown])
      ensures forall u, time ::
        Unbenched(View(), u, time) <==> if u == url then time > now + cooldown else Unbenched(old(View()), u, time)
      ensures old(current) < |urls| && url == urls[old(current)] && cooldown == COOLDOWN ==>
        View() == Next(urls, old(View()), Fail(now))
      ensures (forall u | u in old(benched) :: old(benched)[u] <= now + cooldown) ==>
        forall u | u in old(benched) :: u in benched && old(benched)[u] <= benched[u]
    {
      benched := benched[url := now + cooldown];
    }

    /** One turn of the indexer loop: pick, run the cycle, bench the endpoint if the cycle failed. */
    method Turn(pickTime: int, failed: bool, endTime: int)
      requires Valid()
      modifies this
      ensures Valid()
      ensures var picked := Next(urls, old(View()), Event.Pick(pickTime));
        View() == Next(urls, picked, if failed then Fail(endTime) else End(endTime))
    {
      var url := Pick(pickTime);
      if failed { Bench(url, endTime, COOLDOWN); }
    }
  }
}
