/**
 The request limiter: a counter per key, started by the first hit and given 60 seconds to live by
 that hit's EXPIRE, which lands at any later moment or never.  Time is in milliseconds.
 */
module RateLimit {

  const DEFAULT_RPM := 60
  const WINDOW := 60_000

  type Request = nat

  /** The key in the store: absent, or a count with an optional expiry time. */
  datatype Counter = Absent | Counting(count: nat, expires: Expiry)
  datatype Expiry = Never | At(time: int)

  /** What happens to one key.  Requests are interleaved: a request's EXPIRE is a step of its own. */
  datatype Event =
    | Hit(request: Request, now: int)      // INCR and the decision
    | HitFails(now: int, applied: bool)    // INCR or its reply fails: the request is let through, no EXPIRE is sent
    | Expire(request: Request, now: int)   // the EXPIRE a first hit still owes lands
    | ExpireLost(request: Request, now: int)

  /**
   A counted request: when, in which life of the counter, with which count, whether the limiter got to know that
   count, and what it then decided.
   */
  datatype Answer = Answer(now: int, life: nat, count: nat, replied: bool, admitted: bool, remaining: nat)

  datatype State = State(counter: Counter, life: nat, owing: set<Request>, clock: int, log: seq<Answer>)

  function Live(c: Counter, now: int): Counter {
    if c.Counting? && c.expires.At? && now >= c.expires.time then Absent else c
  }

  function Remaining(count: nat): nat {
    if DEFAULT_RPM - count < 0 then 0 else DEFAULT_RPM - count
  }

  /** The store counts a request; without a reply the limiter lets it through, whatever the count. */
  function Increment(s: State, now: int, replied: bool): (t: State)
    ensures t.counter.Counting? && |t.log| == |s.log| + 1
  {
    var c := Live(s.counter, now);
    var count := if c.Absent? then 1 else c.count + 1;
    var life := if c.Absent? then s.life + 1 else s.life;
    var answer := if replied then Answer(now, life, count, true, count <= DEFAULT_RPM, Remaining(count))
                  else Answer(now, life, count, false, true, 0);
    s.(counter := Counting(count, if c.Absent? then Never else c.expires),
       life := life, clock := now, log := s.log + [answer])
  }

  function Next(s: State, e: Event): State {
    match e
    case Hit(request, now) =>
      var t := Increment(s, now, true);
      t.(owing := if t.counter.count == 1 then s.owing + {request} else s.owing)
    case HitFails(now, applied) => if applied then Increment(s, now, false) else s.(clock := now)
    case Expire(request, now) =>
      if request !in s.owing then s
      else
        var c := Live(s.counter, now);
        s.(counter := if c.Absent? then Absent else c.(expires := At(now + WINDOW)),
           owing := s.owing - {request}, clock := now)
    case ExpireLost(request, now) => s.(owing := s.owing - {request}, clock := now)
  }

  function Init(start: int): State { State(Absent, 0, {}, start, []) }

  function RunFrom(s: State, es: seq<Event>): State {
    if es == [] then s else Next(RunFrom(s, es[..|es| - 1]), es[|es| - 1])
  }

  /** The store's clock never runs backwards. */
  predicate Monotone(start: int, es: seq<Event>) {
    && (forall e | e in es :: start <= e.now)
    && (forall i, j | 0 <= i < j < |es| :: es[i].now <= es[j].now)
  }

  // ---- Counting ----

  function Count(log: seq<Answer>, p: Answer -> bool): nat {
    if log == [] then 0 else Count(log[..|log| - 1], p) + if p(log[|log| - 1]) then 1 else 0
  }

  /** All hits of one life, let through or not. */
  function OfLife(life: nat): Answer -> bool { (a: Answer) => a.life == life }

  /** The answers by which the limiter admits a request it has counted. */
  predicate Admits(a: Answer) { a.replied && a.admitted }

  /** Admitted answers of one life of the counter. */
  function InLife(life: nat): Answer -> bool { (a: Answer) => Admits(a) && a.life == life }

  /** The same without the first hit of that life. */
  function LaterInLife(life: nat): Answer -> bool { (a: Answer) => Admits(a) && a.life == life && a.count > 1 }

  /** Admitted answers given at times in [from, to]. */
  function During(from: int, to: int): Answer -> bool { (a: Answer) => Admits(a) && from <= a.now <= to }

  lemma {:induction false} CountSplits(log: seq<Answer>, p: Answer -> bool, q: Answer -> bool, r: Answer -> bool)
    requires forall a | a in log && p(a) :: q(a) || r(a)
    ensures Count(log, p) <= Count(log, q) + Count(log, r)
  {
    if log != [] {
      var init, last := log[..|log| - 1], log[|log| - 1];
      forall a | a in init && p(a) ensures q(a) || r(a) { assert a in log; }
      CountSplits(init, p, q, r);
      assert last in log;
    }
  }

  /** The times of the counted requests of a run, and whether the limiter learnt their counts. */
  function Hits(es: seq<Event>): seq<(int, bool)> {
    if es == [] then []
    else
      var before := Hits(es[..|es| - 1]);
      match es[|es| - 1]
      case Hit(_, now) => before + [(now, true)]
      case HitFails(now, true) => before + [(now, false)]
      case _ => before
  }

  /** Every counted request is answered once, in order, and refused exactly for a known count above 60. */
  lemma {:induction false} EveryHitIsAnswered(start: int, es: seq<Event>)
    ensures var log := RunFrom(Init(start), es).log;
      && |log| == |Hits(es)|
      && forall i | 0 <= i < |log| ::
           (log[i].now, log[i].replied) == Hits(es)[i]
           && (!log[i].admitted <==> log[i].replied && log[i].count > DEFAULT_RPM)
  {
    if es != [] { EveryHitIsAnswered(start, es[..|es| - 1]); }
  }

  // ---- Lives of the counter ----

  /**
   Lives are numbered in order; counts grow within a life; two lives apart, or after the first hit of an
   earlier life, a whole window has passed.
   */
  predicate LivesApart(log: seq<Answer>) {
    forall i, j | 0 <= i < j < |log| ::
      && log[i].now <= log[j].now && log[i].life <= log[j].life
      && (log[i].life + 2 <= log[j].life ==> log[i].now + WINDOW <= log[j].now)
      && (log[i].life < log[j].life && log[i].count == 1 ==> log[i].now + WINDOW <= log[j].now)
      && (log[i].life == log[j].life ==> log[i].count < log[j].count)
  }

  function Capped(count: nat): nat { if count <= DEFAULT_RPM then count else DEFAULT_RPM }

  /** Each life admits at most 60, the present one at most as many as were counted up to there. */
  ghost predicate LivesCapped(s: State) {
    && (forall life: nat | life > s.life :: Count(s.log, InLife(life)) == 0 == Count(s.log, LaterInLife(life)))
    && (forall life: nat :: Count(s.log, InLife(life)) <= DEFAULT_RPM)
    && (forall life: nat :: Count(s.log, LaterInLife(life)) <= DEFAULT_RPM - 1)
    && (s.counter.Counting? ==>
         && s.counter.count > 0
         && Count(s.log, InLife(s.life)) <= Capped(s.counter.count)
         && Count(s.log, LaterInLife(s.life)) <= Capped(s.counter.count) - 1)
  }

  predicate WellLogged(s: State) {
    && LivesApart(s.log)
    && (forall a | a in s.log :: a.now <= s.clock && 1 <= a.life <= s.life && a.count > 0)
    && (forall a | a in s.log && a.replied ::
          a.admitted == (a.count <= DEFAULT_RPM) && a.remaining == Remaining(a.count))
    && (forall a | a in s.log && !a.replied :: a.admitted)
  }

  /** At most one EXPIRE is owed, by the first hit of the counter's present life. */
  predicate Owes(s: State) {
    && (forall q, r | q in s.owing && r in s.owing :: q == r)
    && (s.owing != {} ==> s.counter.Counting? && s.counter.expires.Never?)
  }

  /** An expiry lies a window after every answer of the earlier lives and after the first hit of the present one. */
  predicate Timed(s: State) {
    && (s.counter.Absent? ==> s.log == [])
    && (s.counter.Counting? ==>
         && s.life > 0
         && (forall a | a in s.log && (a.life + 2 <= s.life || (a.life < s.life && a.count == 1)) ::
               a.now + WINDOW <= s.clock)
         && (forall a | a in s.log && a.life == s.life :: a.count <= s.counter.count)
         && (s.counter.expires.At? ==> forall a | a in s.log && (a.life < s.life || a.count == 1) ::
               a.now + WINDOW <= s.counter.expires.time))
  }

  ghost predicate Consistent(s: State) {
    WellLogged(s) && LivesCapped(s) && Owes(s) && Timed(s)
  }

  lemma {:induction false} RunIsConsistent(start: int, es: seq<Event>)
    requires Monotone(start, es)
    ensures Consistent(RunFrom(Init(start), es))
    ensures RunFrom(Init(start), es).clock == start || exists e | e in es :: RunFrom(Init(start), es).clock == e.now
  {
    if es != [] {
      var es' := es[..|es| - 1];
      RunIsConsistent(start, es');
      var s, e := RunFrom(Init(start), es'), es[|es| - 1];
      assert e in es;
      StepIsConsistent(s, e);
      assert Next(s, e).clock in {s.clock, e.now};
    }
  }

  lemma StepIsConsistent(s: State, e: Event)
    requires Consistent(s) && s.clock <= e.now
    ensures Consistent(Next(s, e))
  {
    match e
    case Hit(request, now) => HitIsConsistent(s, request, now);
    case HitFails(now, applied) =>
      if applied { IncrementIsConsistent(s, now, false); } else { SameCountIsConsistent(s, Next(s, e)); }
    case Expire(request, now) => ExpireIsTimed(s, request, now); SameCountIsConsistent(s, Next(s, e));
    case ExpireLost(request, now) => SameCountIsConsistent(s, Next(s, e));
  }

  lemma HitIsConsistent(s: State, request: Request, now: int)
    requires Consistent(s) && s.clock <= now
    ensures Consistent(Next(s, Hit(request, now)))
  {
    IncrementIsConsistent(s, now, true);
    SameCountIsConsistent(Increment(s, now, true), Next(s, Hit(request, now)));
  }

  /** A step that counts nothing, with the expiry in order. */
  lemma SameCountIsConsistent(s: State, t: State)
    requires Consistent(s) && t.log == s.log && t.life == s.life && s.clock <= t.clock
    requires t.counter.Counting? == s.counter.Counting? && (s.counter.Counting? ==> t.counter.count == s.counter.count)
    requires t.counter == s.counter || Timed(t)
    requires Owes(t) || (t.owing <= s.owing && t.counter == s.counter)
    ensures Consistent(t)
  {
    assert LivesCapped(t) && WellLogged(t);
  }

  lemma ExpireIsTimed(s: State, request: Request, now: int)
    requires Consistent(s) && s.clock <= now
    ensures var t := Next(s, Expire(request, now));
      && Owes(t) && Timed(t) && t.counter.Counting? == s.counter.Counting?
      && (s.counter.Counting? ==> t.counter.count == s.counter.count)
  {}

  lemma IncrementIsConsistent(s: State, now: int, replied: bool)
    requires Consistent(s) && s.clock <= now
    ensures Consistent(Increment(s, now, replied))
    ensures Increment(s, now, replied).counter.count == 1 ==>
      s.owing == {} && Increment(s, now, replied).counter.expires.Never?
  {
    HitIsLogged(s, now, replied);
    HitIsCapped(s, now, replied);
  }

  lemma HitIsLogged(s: State, now: int, replied: bool)
    requires Consistent(s) && s.clock <= now
    ensures var t := Increment(s, now, replied); WellLogged(t) && Owes(t) && Timed(t)
  {
    var t := Increment(s, now, replied);
    var a := t.log[|s.log|];
    HitIsApart(s, a, now, replied);
    AppendApart(s.log, a);
  }

  /** The answer to a hit against all earlier ones. */
  lemma HitIsApart(s: State, a: Answer, now: int, replied: bool)
    requires WellLogged(s) && Timed(s) && s.clock <= now && a == Increment(s, now, replied).log[|s.log|]
    ensures forall b | b in s.log ::
      && b.now <= a.now && b.life <= a.life
      && (b.life + 2 <= a.life ==> b.now + WINDOW <= a.now)
      && (b.life < a.life && b.count == 1 ==> b.now + WINDOW <= a.now)
      && (b.life == a.life ==> b.count < a.count)
  {}

  lemma AppendApart(log: seq<Answer>, a: Answer)
    requires LivesApart(log)
    requires forall b | b in log ::
      && b.now <= a.now && b.life <= a.life
      && (b.life + 2 <= a.life ==> b.now + WINDOW <= a.now)
      && (b.life < a.life && b.count == 1 ==> b.now + WINDOW <= a.now)
      && (b.life == a.life ==> b.count < a.count)
    ensures LivesApart(log + [a])
  {}

  lemma HitIsCapped(s: State, now: int, replied: bool)
    requires Consistent(s) && s.clock <= now
    ensures LivesCapped(Increment(s, now, replied))
  {
    var t := Increment(s, now, replied);
    var a := t.log[|s.log|];
    assert t.log[..|s.log|] == s.log;
    forall life: nat
      ensures Count(t.log, InLife(life)) == Count(s.log, InLife(life)) + if InLife(life)(a) then 1 else 0
      ensures Count(t.log, LaterInLife(life)) == Count(s.log, LaterInLife(life)) + if LaterInLife(life)(a) then 1 else 0
    {}
  }

  // ---- The bounds ----

  /**
   Every life of the counter admits at most 60 counted requests, and any interval shorter than a window at
   most 119, whatever the interleaving of INCRs and EXPIREs and even if EXPIREs are lost.
   */
  lemma AdmissionBounds(start: int, es: seq<Event>, from: int, to: int)
    requires Monotone(start, es) && to - from < 60_000
    ensures var log := RunFrom(Init(start), es).log;
      && (forall life: nat :: Count(log, InLife(life)) <= 60)
      && Count(log, During(from, to)) <= 119
  {
    RunIsConsistent(start, es);
    var s := RunFrom(Init(start), es);
    var p := During(from, to);
    var i := Earliest(s.log, p);
    if i == |s.log| {
      forall a | a in s.log ensures !p(a) { var k :| 0 <= k < |s.log| && s.log[k] == a; }
      CountSplits(s.log, p, LaterInLife(0), InLife(1));
    } else {
      AtMostTwoLives(s.log, from, to, i);
    }
  }

  lemma Earliest(log: seq<Answer>, p: Answer -> bool) returns (i: nat)
    ensures i <= |log| && (i < |log| ==> p(log[i]))
    ensures forall k | 0 <= k < i :: !p(log[k])
  {
    i := 0;
    while i < |log| && !p(log[i])
      invariant i <= |log| && forall k | 0 <= k < i :: !p(log[k])
    {
      i := i + 1;
    }
  }

  /** An interval shorter than a window meets one life, or two but then not the first hit of the earlier one. */
  lemma AtMostTwoLives(log: seq<Answer>, from: int, to: int, i: nat)
    requires LivesApart(log) && (forall a | a in log :: a.count > 0) && to - from < WINDOW
    requires i < |log| && During(from, to)(log[i]) && forall k | 0 <= k < i :: !During(from, to)(log[k])
    requires forall life: nat :: Count(log, InLife(life)) <= DEFAULT_RPM
    requires forall life: nat :: Count(log, LaterInLife(life)) <= DEFAULT_RPM - 1
    ensures Count(log, During(from, to)) <= 2 * DEFAULT_RPM - 1
  {
    var p, life := During(from, to), log[i].life;
    if j :| i <= j < |log| && p(log[j]) && log[j].life != life {
      forall k | 0 <= k < |log| && p(log[k]) ensures LaterInLife(life)(log[k]) || InLife(life + 1)(log[k]) {
        InTwoLives(log, from, to, i, j, k);
      }
      CountSplits(log, p, LaterInLife(life), InLife(life + 1));
    } else {
      CountSplits(log, p, InLife(life), LaterInLife(life + 1));
    }
  }

  lemma InTwoLives(log: seq<Answer>, from: int, to: int, i: nat, j: nat, k: nat)
    requires LivesApart(log) && (forall a | a in log :: a.count > 0) && to - from < WINDOW
    requires i <= j < |log| && i <= k < |log| && log[i].life != log[j].life
    requires from <= log[i].now && log[j].now <= to && log[k].now <= to && log[i].now <= to
    requires from <= log[k].now
    ensures (log[k].life == log[i].life && log[k].count > 1) || log[k].life == log[i].life + 1
  {
    assert log[k] in log && log[i] in log;
  }

  /** Each answer's count is the number of hits of its life up to and including it. */
  predicate Numbered(log: seq<Answer>) {
    forall i | 0 <= i < |log| :: log[i].count == Count(log[..i + 1], OfLife(log[i].life))
  }

  ghost predicate Counted(s: State) {
    && Numbered(s.log)
    && (s.counter.Counting? ==> Count(s.log, OfLife(s.life)) == s.counter.count)
    && (s.counter.Absent? ==> s.log == [])
    && (forall life: nat | life > s.life :: Count(s.log, OfLife(life)) == 0)
  }

  lemma {:induction false} CountsAreNumbers(start: int, es: seq<Event>)
    requires Monotone(start, es)
    ensures Counted(RunFrom(Init(start), es))
  {
    if es != [] {
      CountsAreNumbers(start, es[..|es| - 1]);
      RunIsConsistent(start, es[..|es| - 1]);
      StepKeepsCounted(RunFrom(Init(start), es[..|es| - 1]), es[|es| - 1]);
    }
  }

  lemma StepKeepsCounted(s: State, e: Event)
    requires Counted(s) && (s.owing != {} ==> s.counter.Counting? && s.counter.expires.Never?)
    ensures Counted(Next(s, e))
  {
    if e.Hit? || (e.HitFails? && e.applied) { IncrementKeepsCounted(s, e.now, e.Hit?); }
  }

  lemma IncrementKeepsCounted(s: State, now: int, replied: bool)
    requires Counted(s)
    ensures Counted(Increment(s, now, replied))
  {
    var a := Increment(s, now, replied).log[|s.log|];
    CountAppended(s.log, a);
    AppendNumbered(s.log, a);
  }

  lemma CountAppended(log: seq<Answer>, a: Answer)
    ensures forall life: nat ::
      Count(log + [a], OfLife(life)) == Count(log, OfLife(life)) + if a.life == life then 1 else 0
  {
    assert (log + [a])[..|log|] == log;
  }

  lemma AppendNumbered(log: seq<Answer>, a: Answer)
    requires Numbered(log) && a.count == Count(log, OfLife(a.life)) + 1
    ensures Numbered(log + [a])
  {
    CountAppended(log, a);
    var t := log + [a];
    forall i | 0 <= i < |t| ensures t[i].count == Count(t[..i + 1], OfLife(t[i].life)) {
      if i < |log| { assert t[..i + 1] == log[..i + 1]; } else { assert t[..i + 1] == t; }
    }
  }

  /**
   The advertised remaining count never grows within a life and is zero whenever a request is refused.  It says
   what will happen: of the requests of that life counted from then on, exactly the next `remaining` ones are admitted.
   */
  lemma RemainingIsHonest(start: int, es: seq<Event>)
    requires Monotone(start, es)
    ensures var log := RunFrom(Init(start), es).log;
      && (forall i, j | 0 <= i < j < |log| && log[i].life == log[j].life && log[i].replied && log[j].replied ::
            && log[j].remaining <= log[i].remaining
            && var between := Count(log[..j + 1], OfLife(log[i].life)) - Count(log[..i + 1], OfLife(log[i].life));
               log[j].admitted <==> between <= log[i].remaining)
      && (forall a | a in log && !a.admitted :: a.remaining == 0)
  {
    RunIsConsistent(start, es);
    CountsAreNumbers(start, es);
    var log := RunFrom(Init(start), es).log;
    forall i, j | 0 <= i < j < |log| && log[i].life == log[j].life && log[i].replied && log[j].replied
      ensures log[j].remaining <= log[i].remaining
      ensures log[j].admitted <==> log[j].count - log[i].count <= log[i].remaining
    {
      assert log[i] in log && log[j] in log;
      RemainingAdmits(log[i], log[j]);
    }
  }

  lemma RemainingAdmits(a: Answer, b: Answer)
    requires a.remaining == Remaining(a.count) && b.remaining == Remaining(b.count) && a.count < b.count
    requires b.admitted == (b.count <= DEFAULT_RPM)
    ensures b.remaining <= a.remaining && (b.admitted <==> b.count - a.count <= a.remaining)
  {}

  // ---- When an interval stays within 60 ----

  lemma {:induction false} CountMonotone(log: seq<Answer>, p: Answer -> bool, q: Answer -> bool)
    requires forall a | a in log && p(a) :: q(a)
    ensures Count(log, p) <= Count(log, q)
  {
    if log != [] {
      forall a | a in log[..|log| - 1] && p(a) ensures q(a) { assert a in log; }
      CountMonotone(log[..|log| - 1], p, q);
      assert log[|log| - 1] in log;
    }
  }

  /** An interval of any length that meets one life only admits at most 60. */
  lemma OneLifeBound(start: int, es: seq<Event>, from: int, to: int, life: nat)
    requires Monotone(start, es)
    requires forall a | a in RunFrom(Init(start), es).log && During(from, to)(a) :: a.life == life
    ensures Count(RunFrom(Init(start), es).log, During(from, to)) <= DEFAULT_RPM
  {
    RunIsConsistent(start, es);
    CountMonotone(RunFrom(Init(start), es).log, During(from, to), InLife(life));
  }

  /** The counter restarts at the `k`-th answer, inside the interval and after another answer in it. */
  predicate RestartsInside(log: seq<Answer>, from: int, to: int, k: nat) {
    && k < |log| && log[k].count == 1 && from <= log[k].now <= to
    && exists i :: 0 <= i < k && log[i].life < log[k].life && During(from, to)(log[i])
  }

  /** More than 60 are admitted only in an interval inside which the counter restarts. */
  lemma OverSixtyRestarts(start: int, es: seq<Event>, from: int, to: int)
    requires Monotone(start, es) && Count(RunFrom(Init(start), es).log, During(from, to)) > DEFAULT_RPM
    ensures exists k: nat :: RestartsInside(RunFrom(Init(start), es).log, from, to, k)
  {
    RunIsConsistent(start, es);
    CountsAreNumbers(start, es);
    var log := RunFrom(Init(start), es).log;
    var i := Earliest(log, During(from, to));
    if i == |log| {
      forall a | a in log ensures !During(from, to)(a) { var k :| 0 <= k < |log| && log[k] == a; }
      OneLifeBound(start, es, from, to, 0);
    } else if j :| i <= j < |log| && During(from, to)(log[j]) && log[j].life != log[i].life {
      FirstOfLife(log, from, to, i, j);
    } else {
      forall a | a in log && During(from, to)(a) ensures a.life == log[i].life {
        var k :| 0 <= k < |log| && log[k] == a;
      }
      OneLifeBound(start, es, from, to, log[i].life);
    }
  }

  lemma FirstOfLife(log: seq<Answer>, from: int, to: int, i: nat, j: nat)
    requires LivesApart(log) && Numbered(log) && i < j < |log|
    requires During(from, to)(log[i]) && During(from, to)(log[j]) && log[i].life != log[j].life
    ensures exists k: nat :: RestartsInside(log, from, to, k)
  {
    var k := i + 1;
    while log[k].life == log[i].life
      invariant i < k <= j && forall n | i <= n < k :: log[n].life == log[i].life
      decreases j - k
    {
      k := k + 1;
    }
    StartsLife(log, i, k);
    assert RestartsInside(log, from, to, k);
  }

  lemma StartsLife(log: seq<Answer>, i: nat, k: nat)
    requires LivesApart(log) && Numbered(log) && i < k < |log| && log[k].life != log[i].life
    requires forall n | i <= n < k :: log[n].life == log[i].life
    ensures log[k].count == 1
  {
    forall n | 0 <= n < k ensures log[n].life != log[k].life { if n < i { assert log[n].life <= log[i].life; } }
    FirstIsOne(log, k);
  }

  lemma FirstIsOne(log: seq<Answer>, k: nat)
    requires Numbered(log) && k < |log| && forall n | 0 <= n < k :: log[n].life != log[k].life
    ensures log[k].count == 1
  {
    NoneOfLife(log[..k], log[k].life);
    assert log[..k + 1][..k] == log[..k];
  }

  lemma {:induction false} NoneOfLife(log: seq<Answer>, life: nat)
    requires forall i | 0 <= i < |log| :: log[i].life != life
    ensures Count(log, OfLife(life)) == 0
  {
    if log != [] { NoneOfLife(log[..|log| - 1], life); }
  }

  /** The admitted answers of one life in an interval. */
  function Within(from: int, to: int, life: nat): Answer -> bool {
    (a: Answer) => Admits(a) && from <= a.now <= to && a.life == life
  }

  lemma {:induction false} CountDisjoint(log: seq<Answer>, p: Answer -> bool, q: Answer -> bool, r: Answer -> bool)
    requires forall a | a in log && (p(a) || q(a)) :: r(a) && !(p(a) && q(a))
    ensures Count(log, p) + Count(log, q) <= Count(log, r)
  {
    if log != [] {
      var init := log[..|log| - 1];
      forall a | a in init && (p(a) || q(a)) ensures r(a) && !(p(a) && q(a)) { assert a in log; }
      CountDisjoint(init, p, q, r);
      assert log[|log| - 1] in log;
    }
  }

  /** An interval shorter than a window admits more than 60 exactly if two successive lives do so in it together. */
  lemma OverSixtyIff(start: int, es: seq<Event>, from: int, to: int)
    requires Monotone(start, es) && to - from < WINDOW
    ensures var log := RunFrom(Init(start), es).log;
      Count(log, During(from, to)) > DEFAULT_RPM <==>
      exists life: nat :: Count(log, Within(from, to, life)) + Count(log, Within(from, to, life + 1)) > DEFAULT_RPM
  {
    var log := RunFrom(Init(start), es).log;
    forall life: nat
      ensures Count(log, Within(from, to, life)) + Count(log, Within(from, to, life + 1))
           <= Count(log, During(from, to))
    {
      CountDisjoint(log, Within(from, to, life), Within(from, to, life + 1), During(from, to));
    }
    RunIsConsistent(start, es);
    var life := TwoLives(log, from, to);
    CountSplits(log, During(from, to), Within(from, to, life), Within(from, to, life + 1));
  }

  /** The lives an interval shorter than a window meets. */
  lemma TwoLives(log: seq<Answer>, from: int, to: int) returns (life: nat)
    requires LivesApart(log) && (forall a | a in log :: a.count > 0) && to - from < WINDOW
    ensures forall a | a in log && During(from, to)(a) :: a.life == life || a.life == life + 1
  {
    var i := Earliest(log, During(from, to));
    life := if i < |log| then log[i].life else 0;
    forall a | a in log && During(from, to)(a) ensures a.life == life || a.life == life + 1 {
      var k :| 0 <= k < |log| && log[k] == a;
    }
  }

  // ---- The admissions of a life, from its counts ----

  /** The requests of a life counted before time `t`, or up to it: how far its counter had got. */
  function CountedBefore(life: nat, t: int): Answer -> bool { (a: Answer) => a.life == life && a.now < t }
  function CountedBy(life: nat, t: int): Answer -> bool { (a: Answer) => a.life == life && a.now <= t }

  predicate AllReplied(log: seq<Answer>) {
    forall a | a in log :: a.replied && (a.admitted <==> a.count <= DEFAULT_RPM)
  }

  lemma {:induction false} CountSame(log: seq<Answer>, p: Answer -> bool, q: Answer -> bool)
    requires forall a | a in log :: p(a) <==> q(a)
    ensures Count(log, p) == Count(log, q)
  {
    CountMonotone(log, p, q);
    CountMonotone(log, q, p);
  }

  /** What `AdmittedByCounts` needs of a log, and what its prefixes keep. */
  predicate Regular(log: seq<Answer>) { LivesApart(log) && Numbered(log) && AllReplied(log) }

  lemma PrefixIsRegular(log: seq<Answer>)
    requires log != [] && Regular(log)
    ensures Regular(log[..|log| - 1])
    ensures var init, a := log[..|log| - 1], log[|log| - 1];
      && (forall b | b in init :: b.now <= a.now) && a.count == Count(init, OfLife(a.life)) + 1
      && a.replied && (a.admitted <==> a.count <= DEFAULT_RPM)
  {
    PrefixIsNumbered(log);
    PrefixIsApart(log);
    assert log[|log| - 1] in log && forall b | b in log[..|log| - 1] :: b in log;
  }

  lemma PrefixIsApart(log: seq<Answer>)
    requires log != [] && LivesApart(log)
    ensures LivesApart(log[..|log| - 1]) && forall b | b in log[..|log| - 1] :: b.now <= log[|log| - 1].now
  {
    assert forall i | 0 <= i < |log| - 1 :: log[..|log| - 1][i] == log[i];
  }

  lemma PrefixIsNumbered(log: seq<Answer>)
    requires log != [] && Numbered(log)
    ensures var init, a := log[..|log| - 1], log[|log| - 1];
      Numbered(init) && a.count == Count(init, OfLife(a.life)) + 1
  {
    var init, a := log[..|log| - 1], log[|log| - 1];
    forall i | 0 <= i < |init| ensures init[i].count == Count(init[..i + 1], OfLife(init[i].life)) {
      assert init[..i + 1] == log[..i + 1];
    }
    LastNumber(log);
  }

  lemma LastNumber(log: seq<Answer>)
    requires log != [] && Numbered(log)
    ensures var init, a := log[..|log| - 1], log[|log| - 1]; a.count == Count(init, OfLife(a.life)) + 1
  {
    assert log[..|log| - 1 + 1] == log;
  }

  /** In an interval a life admits what its counter gained there, each value cut off at 60. */
  lemma {:induction false} AdmittedByCounts(log: seq<Answer>, from: int, to: int, life: nat)
    requires from <= to && Regular(log)
    ensures Count(log, Within(from, to, life)) == Gain(log, from, to, life)
  {
    if log != [] {
      PrefixIsRegular(log);
      AdmittedByCounts(log[..|log| - 1], from, to, life);
      OneMoreCounted(log[..|log| - 1], log[|log| - 1], log, from, to, life);
    }
  }

  lemma OneMoreCounted(init: seq<Answer>, a: Answer, log: seq<Answer>, from: int, to: int, life: nat)
    requires log == init + [a] && from <= to && forall b | b in init :: b.now <= a.now
    requires a.replied && (a.admitted <==> a.count <= DEFAULT_RPM) && a.count == Count(init, OfLife(a.life)) + 1
    requires Count(init, Within(from, to, life)) == Gain(init, from, to, life)
    ensures Count(log, Within(from, to, life)) == Gain(log, from, to, life)
  {
    CountOneMore(init, a, Within(from, to, life));
    CountOneMore(init, a, CountedBy(life, to));
    CountOneMore(init, a, CountedBefore(life, from));
    if a.life == life && a.now < from {
      CountSame(init, CountedBy(life, to), CountedBefore(life, from));
    } else if a.life == life && a.now <= to {
      CountSame(init, CountedBy(life, to), OfLife(life));
    }
  }

  lemma CountOneMore(log: seq<Answer>, a: Answer, p: Answer -> bool)
    ensures Count(log + [a], p) == Count(log, p) + if p(a) then 1 else 0
  {
    assert (log + [a])[..|log|] == log;
  }

  /**
   If no reply is lost, an interval shorter than a window admits more than 60 exactly if the counter of two
   successive lives gained more than 60 in it, values cut off at 60.
   */
  lemma OverSixtyByCounts(start: int, es: seq<Event>, from: int, to: int)
    requires Monotone(start, es) && from <= to && to - from < WINDOW
    requires forall e | e in es && e.HitFails? :: !e.applied
    ensures var log := RunFrom(Init(start), es).log;
      Count(log, During(from, to)) > DEFAULT_RPM <==> exists life: nat :: GainOver(log, from, to, life)
  {
    RunIsConsistent(start, es);
    CountsAreNumbers(start, es);
    RepliesArrive(start, es);
    OverSixtyIff(start, es, from, to);
    var log := RunFrom(Init(start), es).log;
    forall life: nat
      ensures Gain(log, from, to, life) == Count(log, Within(from, to, life))
    {
      AdmittedByCounts(log, from, to, life);
    }
    forall life: nat
      ensures GainOver(log, from, to, life) <==>
        Count(log, Within(from, to, life)) + Count(log, Within(from, to, life + 1)) > DEFAULT_RPM
    {}
  }

  function Gain(log: seq<Answer>, from: int, to: int, life: nat): int {
    Capped(Count(log, CountedBy(life, to))) - Capped(Count(log, CountedBefore(life, from)))
  }

  predicate GainOver(log: seq<Answer>, from: int, to: int, life: nat) {
    Gain(log, from, to, life) + Gain(log, from, to, life + 1) > DEFAULT_RPM
  }

  lemma {:induction false} RepliesArrive(start: int, es: seq<Event>)
    requires forall e | e in es && e.HitFails? :: !e.applied
    ensures AllReplied(RunFrom(Init(start), es).log)
  {
    if es != [] {
      assert forall e | e in es[..|es| - 1] :: e in es;
      assert es[|es| - 1] in es;
      RepliesArrive(start, es[..|es| - 1]);
    }
  }

  // ---- Intervals of many windows ----

  /** Lives follow one another by one, from the first on. */
  predicate Successive(log: seq<Answer>) { forall i | 0 < i < |log| :: log[i].life <= log[i - 1].life + 1 }

  lemma {:induction false} LivesSucceed(start: int, es: seq<Event>)
    ensures var s := RunFrom(Init(start), es); Successive(s.log) && (s.log != [] ==> s.log[|s.log| - 1].life == s.life)
  {
    if es != [] { LivesSucceed(start, es[..|es| - 1]); }
  }

  /** Between two lives every life has its first hit. */
  lemma FirstHitOf(log: seq<Answer>, i: nat, j: nat, life: nat) returns (k: nat)
    requires LivesApart(log) && Numbered(log) && Successive(log)
    requires i < j < |log| && log[i].life < life <= log[j].life
    ensures i < k <= j && log[k].life == life && log[k].count == 1
  {
    k := i + 1;
    while log[k].life < life
      invariant i < k <= j && forall n | i <= n < k :: log[n].life < life
      decreases j - k
    {
      k := k + 1;
    }
    assert log[k].life <= log[k - 1].life + 1;
    forall n | 0 <= n < k ensures log[n].life != life { if n < i { assert log[n].life <= log[i].life; } }
    FirstIsOne(log, k);
  }

  /** An answer `d` lives after a first hit comes `d` windows later, or more. */
  lemma {:induction false} LivesLater(log: seq<Answer>, i: nat, j: nat, d: nat)
    requires LivesApart(log) && Numbered(log) && Successive(log)
    requires i <= j < |log| && log[i].count == 1 && log[j].life == log[i].life + d
    ensures log[i].now + d * WINDOW <= log[j].now
    decreases d
  {
    if d > 0 {
      var k := FirstHitOf(log, i, j, log[i].life + 1);
      LivesLater(log, k, j, d - 1);
    }
  }

  function Of(p: Answer -> bool, life: nat): Answer -> bool { (a: Answer) => p(a) && a.life == life }

  /** Answers of lives `life` to `life + n` only, of which the first admits `first` at most. */
  lemma {:induction false} CountLives(log: seq<Answer>, p: Answer -> bool, life: nat, n: nat, first: nat)
    requires forall a | a in log && p(a) :: Admits(a) && life <= a.life <= life + n
    requires Count(log, Of(p, life)) <= first
    requires forall l: nat :: Count(log, InLife(l)) <= DEFAULT_RPM
    ensures Count(log, p) <= first + DEFAULT_RPM * n
    decreases n
  {
    if n == 0 {
      CountMonotone(log, p, Of(p, life));
    } else {
      var q := (a: Answer) => p(a) && a.life < life + n;
      CountSplits(log, p, q, InLife(life + n));
      CountMonotone(log, Of(q, life), Of(p, life));
      CountLives(log, q, life, n - 1, first);
    }
  }

  /** For any `m`, an interval shorter than `m` windows admits at most 60 (m + 1) - 1, with or without lost EXPIREs. */
  lemma ManyWindows(start: int, es: seq<Event>, from: int, to: int, m: nat)
    requires Monotone(start, es) && m > 0 && to - from < m * WINDOW
    ensures Count(RunFrom(Init(start), es).log, During(from, to)) <= DEFAULT_RPM * (m + 1) - 1
  {
    RunIsConsistent(start, es);
    CountsAreNumbers(start, es);
    LivesSucceed(start, es);
    var log, p := RunFrom(Init(start), es).log, During(from, to);
    var i := Earliest(log, p);
    if i == |log| {
      forall a | a in log ensures !p(a) { var k :| 0 <= k < |log| && log[k] == a; }
      CountMonotone(log, p, InLife(0));
    } else {
      LivesOfInterval(log, from, to, m, i);
    }
  }

  lemma LivesOfInterval(log: seq<Answer>, from: int, to: int, m: nat, i: nat)
    requires LivesApart(log) && Numbered(log) && Successive(log) && m > 0 && to - from < m * WINDOW
    requires i < |log| && During(from, to)(log[i]) && forall k | 0 <= k < i :: !During(from, to)(log[k])
    requires (forall a | a in log :: a.count > 0) && forall l: nat :: Count(log, InLife(l)) <= DEFAULT_RPM
    requires forall l: nat :: Count(log, LaterInLife(l)) <= DEFAULT_RPM - 1
    ensures Count(log, During(from, to)) <= DEFAULT_RPM * (m + 1) - 1
  {
    var life := log[i].life;
    LivesInRange(log, from, to, m, i);
    if j :| i <= j < |log| && During(from, to)(log[j]) && log[j].life == life + m {
      WithLastLife(log, from, to, m, life, j);
    } else {
      forall a | a in log && During(from, to)(a) ensures a.life <= life + (m - 1) {
        var k :| 0 <= k < |log| && log[k] == a;
      }
      CountMonotone(log, Of(During(from, to), life), InLife(life));
      CountLives(log, During(from, to), life, m - 1, DEFAULT_RPM);
    }
  }

  lemma LivesInRange(log: seq<Answer>, from: int, to: int, m: nat, i: nat)
    requires LivesApart(log) && Numbered(log) && Successive(log) && to - from < m * WINDOW
    requires i < |log| && During(from, to)(log[i]) && forall k | 0 <= k < i :: !During(from, to)(log[k])
    ensures forall a | a in log && During(from, to)(a) :: log[i].life <= a.life <= log[i].life + m
  {
    forall a | a in log && During(from, to)(a) ensures log[i].life <= a.life <= log[i].life + m {
      var k :| 0 <= k < |log| && log[k] == a;
      if log[k].life > log[i].life + m { TooFar(log, from, to, m, i, k); }
    }
  }

  /** If the interval reaches the `m`-th life after the first it meets, it misses that one's first hit. */
  lemma WithLastLife(log: seq<Answer>, from: int, to: int, m: nat, life: nat, j: nat)
    requires LivesApart(log) && Numbered(log) && Successive(log) && m > 0 && to - from < m * WINDOW
    requires forall a | a in log && During(from, to)(a) :: life <= a.life <= life + m
    requires j < |log| && log[j].now <= to && log[j].life == life + m
    requires (forall a | a in log :: a.count > 0) && forall l: nat :: Count(log, InLife(l)) <= DEFAULT_RPM
    requires Count(log, LaterInLife(life)) <= DEFAULT_RPM - 1
    ensures Count(log, During(from, to)) <= DEFAULT_RPM * (m + 1) - 1
  {
    forall a | a in log && Of(During(from, to), life)(a) ensures LaterInLife(life)(a) {
      var k :| 0 <= k < |log| && log[k] == a;
      if log[k].count == 1 { LivesLater(log, k, j, m); }
    }
    CountMonotone(log, Of(During(from, to), life), LaterInLife(life));
    CountLives(log, During(from, to), life, m, DEFAULT_RPM - 1);
  }

  lemma TooFar(log: seq<Answer>, from: int, to: int, m: nat, i: nat, k: nat)
    requires LivesApart(log) && Numbered(log) && Successive(log) && to - from < m * WINDOW
    requires i <= k < |log| && from <= log[i].now && log[k].life > log[i].life + m
    ensures log[k].now > to
  {
    var f := FirstHitOf(log, i, k, log[i].life + 1);
    var d := log[k].life - log[f].life;
    LivesLater(log, f, k, d);
    assert d * WINDOW >= m * WINDOW;
  }

  /** The admissions from just before the end of the first window on. */
  function Late(log: seq<Answer>, to: int): nat { Count(log, During(WINDOW - 1, to)) }

  /** Sixty hits in every window, the first of them late. */
  function Rounds(m: nat): seq<Event> {
    if m == 0 then [Hit(0, 0), Expire(0, 0)] + HitsAt(59, WINDOW - 1)
    else Rounds(m - 1) + [Hit(0, m * WINDOW), Expire(0, m * WINDOW)] + HitsAt(59, m * WINDOW)
  }

  lemma {:induction false} RoundsAreAdmitted(m: nat)
    ensures Monotone(0, Rounds(m)) && forall e | e in Rounds(m) :: e.now < (m + 1) * WINDOW
    ensures AfterRounds(RunFrom(Init(0), Rounds(m)), m)
  {
    if m == 0 {
      FirstRound();
    } else {
      RoundsAreAdmitted(m - 1);
      RoundsInOrder(m);
      OneMoreRound(RunFrom(Init(0), Rounds(m - 1)), m);
      RoundsSplit(m);
    }
  }

  ghost predicate AfterRounds(s: State, m: nat) {
    s.counter == Counting(60, At((m + 1) * WINDOW)) && s.owing == {} && LateUpTo(s, m)
  }

  ghost predicate LateUpTo(s: State, m: nat) {
    forall to | to >= m * WINDOW && to >= WINDOW - 1 :: Late(s.log, to) == DEFAULT_RPM * (m + 1) - 1
  }

  lemma FirstRound()
    ensures Monotone(0, Rounds(0)) && (forall e | e in Rounds(0) :: e.now < WINDOW)
    ensures AfterRounds(RunFrom(Init(0), Rounds(0)), 0)
  {
    var es := Rounds(0);
    assert forall i | 0 <= i < |es| :: es[i].now == if i < 2 then 0 else WINDOW - 1;
    var opening := [Hit(0, 0), Expire(0, 0)];
    RunFromSplits(Init(0), opening, HitsAt(59, WINDOW - 1));
    FirstLateHits(RunFrom(Init(0), opening));
  }

  lemma FirstLateHits(s: State)
    requires s == RunFrom(Init(0), [Hit(0, 0), Expire(0, 0)])
    ensures AfterRounds(RunFrom(s, HitsAt(59, WINDOW - 1)), 0)
  {
    OpeningRound(s);
    HitsAdd(s, 59, WINDOW - 1);
    var t := RunFrom(s, HitsAt(59, WINDOW - 1));
    forall to | to >= WINDOW - 1 ensures Late(t.log, to) == 59 {
      assert Late(s.log, to) == 0;
    }
  }

  lemma RoundsSplit(m: nat)
    requires m > 0
    ensures var now, s := m * WINDOW, RunFrom(Init(0), Rounds(m - 1));
      RunFrom(Init(0), Rounds(m)) == RunFrom(RunFrom(s, [Hit(0, now), Expire(0, now)]), HitsAt(59, now))
  {
    var now := m * WINDOW;
    RunFromSplits(Init(0), Rounds(m - 1), [Hit(0, now), Expire(0, now)]);
    RunFromSplits(Init(0), Rounds(m - 1) + [Hit(0, now), Expire(0, now)], HitsAt(59, now));
  }

  lemma RoundsInOrder(m: nat)
    requires m > 0 && Monotone(0, Rounds(m - 1)) && forall e | e in Rounds(m - 1) :: e.now < m * WINDOW
    ensures Monotone(0, Rounds(m)) && forall e | e in Rounds(m) :: e.now < (m + 1) * WINDOW
  {
    var es, n := Rounds(m), |Rounds(m - 1)|;
    assert forall i | 0 <= i < n :: es[i] == Rounds(m - 1)[i] && es[i] in Rounds(m - 1);
    assert forall i | n <= i < |es| :: es[i].now == m * WINDOW;
  }

  lemma OpeningRound(s: State)
    requires s == RunFrom(Init(0), [Hit(0, 0), Expire(0, 0)])
    ensures s.counter == Counting(1, At(WINDOW)) && s.owing == {}
    ensures forall to :: Late(s.log, to) == 0
  {
    OneStep(Init(0), Hit(0, 0));
    OneStep(Next(Init(0), Hit(0, 0)), Expire(0, 0));
    assert [Hit(0, 0), Expire(0, 0)] == [Hit(0, 0)] + [Expire(0, 0)];
    RunFromSplits(Init(0), [Hit(0, 0)], [Expire(0, 0)]);
    assert s.log[..0] == [];
  }

  lemma OneMoreRound(s: State, m: nat)
    requires m > 0 && AfterRounds(s, m - 1)
    ensures var now := m * WINDOW;
      AfterRounds(RunFrom(RunFrom(s, [Hit(0, now), Expire(0, now)]), HitsAt(59, now)), m)
  {
    var now := m * WINDOW;
    var u := RunFrom(s, [Hit(0, now), Expire(0, now)]);
    Restart(s, now);
    HitsAdd(u, 59, now);
    var t := RunFrom(u, HitsAt(59, now));
    forall to | to >= now && to >= WINDOW - 1 ensures Late(t.log, to) == DEFAULT_RPM * (m + 1) - 1 {
      assert Late(u.log, to) == Late(s.log, to) + 1;
    }
  }

  lemma Restart(s: State, now: int)
    requires s.counter == Counting(60, At(now)) && s.owing == {} && now >= WINDOW
    ensures var u := RunFrom(s, [Hit(0, now), Expire(0, now)]);
      && u.counter == Counting(1, At(now + WINDOW)) && u.owing == {}
      && forall to | to >= now :: Late(u.log, to) == Late(s.log, to) + 1
  {
    OneStep(s, Hit(0, now));
    OneStep(Next(s, Hit(0, now)), Expire(0, now));
    assert [Hit(0, now), Expire(0, now)] == [Hit(0, now)] + [Expire(0, now)];
    RunFromSplits(s, [Hit(0, now)], [Expire(0, now)]);
    var u := RunFrom(s, [Hit(0, now), Expire(0, now)]);
    forall to | to >= now ensures Late(u.log, to) == Late(s.log, to) + 1 {
      CountOneMore(s.log, u.log[|s.log|], During(WINDOW - 1, to));
      assert u.log == s.log + [u.log[|s.log|]];
    }
  }

  /** The bound is reached, for every number of windows. */
  lemma ManyWindowsAttained(m: nat)
    requires m > 0
    ensures Monotone(0, Rounds(m)) && m * WINDOW - (WINDOW - 1) < m * WINDOW
    ensures Count(RunFrom(Init(0), Rounds(m)).log, During(WINDOW - 1, m * WINDOW)) == DEFAULT_RPM * (m + 1) - 1
  {
    RoundsAreAdmitted(m);
    assert Late(RunFrom(Init(0), Rounds(m)).log, m * WINDOW) == DEFAULT_RPM * (m + 1) - 1;
  }

  // ---- The bound is attained ----

  function HitsAt(n: nat, now: int): seq<Event> { seq(n, (i: nat) => Hit(i, now)) }

  /** The first hit at 0, `k` more just before its window ends, 60 as soon as it has ended. */
  function Burst(k: nat): seq<Event> {
    [Hit(0, 0), Expire(0, 0)] + HitsAt(k, WINDOW - 1) + [Hit(0, WINDOW)] + HitsAt(59, WINDOW)
  }

  lemma {:induction false} HitsAdd(s: State, n: nat, now: int)
    requires s.counter.Counting? && s.counter.count > 0 && Live(s.counter, now) == s.counter
    requires s.counter.count + n <= DEFAULT_RPM
    ensures var t := RunFrom(s, HitsAt(n, now));
      && t.counter == s.counter.(count := s.counter.count + n) && t.owing == s.owing
      && (forall from, to | from <= now <= to :: Count(t.log, During(from, to)) == Count(s.log, During(from, to)) + n)
  {
    if n > 0 {
      assert HitsAt(n, now)[..n - 1] == HitsAt(n - 1, now);
      HitsAdd(s, n - 1, now);
      var u, t := RunFrom(s, HitsAt(n - 1, now)), RunFrom(s, HitsAt(n, now));
      assert t.log[..|u.log|] == u.log;
    }
  }

  lemma {:induction false} RunFromSplits(s: State, es: seq<Event>, fs: seq<Event>)
    ensures RunFrom(s, es + fs) == RunFrom(RunFrom(s, es), fs)
  {
    if fs == [] {
      assert es + fs == es;
    } else {
      assert (es + fs)[..|es + fs| - 1] == es + fs[..|fs| - 1];
      RunFromSplits(s, es, fs[..|fs| - 1]);
    }
  }

  lemma BurstIsMonotone(k: nat)
    ensures Monotone(0, Burst(k))
  {
    var b := Burst(k);
    assert forall i | 0 <= i < |b| :: b[i].now == if i < 2 then 0 else if i < 2 + k then WINDOW - 1 else WINDOW;
  }

  /** Not a sliding window: `k` late hits of one life and 60 of the next get through within one millisecond. */
  lemma BurstIsAdmitted(k: nat)
    requires k < DEFAULT_RPM
    ensures Monotone(0, Burst(k))
    ensures Count(RunFrom(Init(0), Burst(k)).log, During(WINDOW - 1, WINDOW)) == k + DEFAULT_RPM
  {
    BurstIsMonotone(k);
    var opening, first, second := [Hit(0, 0), Expire(0, 0)], HitsAt(k, WINDOW - 1), HitsAt(59, WINDOW);
    RunFromSplits(Init(0), opening, first);
    RunFromSplits(Init(0), opening + first, [Hit(0, WINDOW)]);
    RunFromSplits(Init(0), opening + first + [Hit(0, WINDOW)], second);
    var s2 := RunFrom(Init(0), opening);
    Opening(s2);
    HitsAdd(s2, k, WINDOW - 1);
    var s3 := RunFrom(s2, first);
    var s4 := RunFrom(s3, [Hit(0, WINDOW)]);
    Reopening(s3, s4);
    HitsAdd(s4, 59, WINDOW);
  }

  /** Some run admits exactly `n` requests in some interval shorter than a window. */
  ghost predicate Attained(n: nat) { exists es, from, to :: AdmitsIn(es, from, to, n) }

  ghost predicate AdmitsIn(es: seq<Event>, from: int, to: int, n: nat) {
    Monotone(0, es) && to - from < WINDOW && Count(RunFrom(Init(0), es).log, During(from, to)) == n
  }

  /** An interval shorter than a window can admit any number up to 119, and no more. */
  lemma AttainedIff(n: nat)
    ensures Attained(n) <==> n <= 119
  {
    if es, from, to :| AdmitsIn(es, from, to, n) { AdmissionBounds(0, es, from, to); }
    if n < 2 * DEFAULT_RPM { var es, from, to := Reached(n); }
  }

  lemma Reached(n: nat) returns (es: seq<Event>, from: int, to: int)
    requires n < 2 * DEFAULT_RPM
    ensures AdmitsIn(es, from, to, n)
  {
    if n == 0 {
      es, from, to := [], 0, 0;
    } else if n <= DEFAULT_RPM {
      FewHits(n);
      es, from, to := [Hit(0, 0)] + HitsAt(n - 1, 0), 0, 0;
    } else {
      BurstIsAdmitted(n - DEFAULT_RPM);
      es, from, to := Burst(n - DEFAULT_RPM), WINDOW - 1, WINDOW;
    }
  }

  /** The first hits of a key, its EXPIRE still owed. */
  lemma FewHits(n: nat)
    requires 0 < n <= DEFAULT_RPM
    ensures var es := [Hit(0, 0)] + HitsAt(n - 1, 0); var s := RunFrom(Init(0), es);
      && Monotone(0, es) && s.counter == Counting(n, Never) && s.owing == {0}
      && Count(s.log, During(0, 0)) == n
  {
    var es := [Hit(0, 0)] + HitsAt(n - 1, 0);
    assert Monotone(0, es) by { assert forall i | 0 <= i < |es| :: es[i].now == 0; }
    RunFromSplits(Init(0), [Hit(0, 0)], HitsAt(n - 1, 0));
    FirstOfAll(RunFrom(Init(0), [Hit(0, 0)]));
    HitsAdd(RunFrom(Init(0), [Hit(0, 0)]), n - 1, 0);
  }

  lemma FirstOfAll(s: State)
    requires s == RunFrom(Init(0), [Hit(0, 0)])
    ensures s.counter == Counting(1, Never) && s.owing == {0} && Count(s.log, During(0, 0)) == 1
  {
    OneStep(Init(0), Hit(0, 0));
    assert s.log[..0] == [];
  }

  lemma Opening(s: State)
    requires s == RunFrom(Init(0), [Hit(0, 0), Expire(0, 0)])
    ensures s.counter == Counting(1, At(WINDOW)) && Count(s.log, During(WINDOW - 1, WINDOW)) == 0
  {
    OneStep(Init(0), Hit(0, 0));
    var s1 := Next(Init(0), Hit(0, 0));
    OneStep(s1, Expire(0, 0));
    assert [Hit(0, 0), Expire(0, 0)] == [Hit(0, 0)] + [Expire(0, 0)];
    RunFromSplits(Init(0), [Hit(0, 0)], [Expire(0, 0)]);
    assert s.log[..0] == [];
  }

  lemma Reopening(s: State, t: State)
    requires s.counter.Counting? && s.counter.expires == At(WINDOW) && t == RunFrom(s, [Hit(0, WINDOW)])
    ensures t.counter == Counting(1, Never)
    ensures Count(t.log, During(WINDOW - 1, WINDOW)) == Count(s.log, During(WINDOW - 1, WINDOW)) + 1
  {
    OneStep(s, Hit(0, WINDOW));
    assert t.log[..|s.log|] == s.log;
  }

  lemma OneStep(s: State, e: Event)
    ensures RunFrom(s, [e]) == Next(s, e)
  {
    assert [e][..0] == [];
  }

  // ---- When a life ends ----

  /** The store counts the request. */
  predicate Counts(e: Event) { e.Hit? || (e.HitFails? && e.applied) }

  /** Life `life` is over, or it is the present one and will be over at `deadline`; nothing of it is later than that. */
  predicate EndsBy(s: State, life: nat, deadline: int) {
    && s.life >= life && s.counter.Counting? && s.counter.count > 0
    && (s.life == life ==> s.counter.expires == At(deadline) && s.owing == {})
    && (forall a | a in s.log && a.life == life :: a.now < deadline)
    && Owes(s)
  }

  lemma StaysAlive(s: State, e: Event, life: nat, deadline: int)
    requires EndsBy(s, life, deadline) && s.life == life && (Counts(e) ==> e.now < deadline)
    ensures Next(s, e).life == life
  {}

  lemma StepEndsBy(s: State, e: Event, life: nat, deadline: int)
    requires EndsBy(s, life, deadline)
    ensures EndsBy(Next(s, e), life, deadline)
  {}

  /** The EXPIRE owed by a first hit lands at step `k`. */
  predicate LandsAt(start: int, es: seq<Event>, k: nat) {
    k < |es| && es[k].Expire? && es[k].request in RunFrom(Init(start), es[..k]).owing
  }

  function LifeAt(start: int, es: seq<Event>, k: nat): nat
    requires k <= |es|
  {
    RunFrom(Init(start), es[..k]).life
  }

  lemma {:induction false} EndsByAfter(start: int, es: seq<Event>, k: nat)
    requires Monotone(start, es) && LandsAt(start, es, k)
    ensures EndsBy(RunFrom(Init(start), es), LifeAt(start, es, k), es[k].now + WINDOW)
  {
    var last := |es| - 1;
    if k == last {
      Landing(start, es);
    } else {
      PrefixLands(start, es, k);
      EndsByAfter(start, es[..last], k);
      StepEndsBy(RunFrom(Init(start), es[..last]), es[last], LifeAt(start, es, k), es[k].now + WINDOW);
    }
  }

  lemma PrefixLands(start: int, es: seq<Event>, k: nat)
    requires Monotone(start, es) && LandsAt(start, es, k) && k < |es| - 1
    ensures var init := es[..|es| - 1];
      && Monotone(start, init) && LandsAt(start, init, k) && LifeAt(start, init, k) == LifeAt(start, es, k)
      && init[k] == es[k]
  {
    var init := es[..|es| - 1];
    assert init[..k] == es[..k];
    assert forall i | 0 <= i < |init| :: init[i] == es[i];
  }

  lemma Landing(start: int, es: seq<Event>)
    requires Monotone(start, es) && es != [] && LandsAt(start, es, |es| - 1)
    ensures EndsBy(RunFrom(Init(start), es), LifeAt(start, es, |es| - 1), es[|es| - 1].now + WINDOW)
  {
    ClockIsPast(start, es);
    LandingStep(RunFrom(Init(start), es[..|es| - 1]), es[|es| - 1]);
  }

  lemma LandingStep(s: State, e: Event)
    requires Consistent(s) && s.clock <= e.now && e.Expire? && e.request in s.owing
    ensures EndsBy(Next(s, e), s.life, e.now + WINDOW)
  {
    assert Owes(s) && WellLogged(s);
  }

  lemma ClockIsPast(start: int, es: seq<Event>)
    requires Monotone(start, es) && es != []
    ensures var s := RunFrom(Init(start), es[..|es| - 1]); Consistent(s) && s.clock <= es[|es| - 1].now
  {
    var init := es[..|es| - 1];
    assert forall i | 0 <= i < |init| :: init[i] == es[i];
    RunIsConsistent(start, init);
    assert es[|es| - 1] in es;
  }

  /**
   When the EXPIRE owed by a life's first hit lands at time t, the life is over a window later: all its answers come
   before t + 60 000, however many requests were refused.
   */
  lemma LifeEndsOnTime(start: int, es: seq<Event>, k: nat)
    requires Monotone(start, es) && LandsAt(start, es, k)
    ensures forall a | a in RunFrom(Init(start), es).log && a.life == LifeAt(start, es, k) :: a.now < es[k].now + 60_000
  {
    EndsByAfter(start, es, k);
  }

  /** After step `k` nothing is counted at `deadline` or later. */
  predicate QuietFrom(es: seq<Event>, k: nat, deadline: int) {
    forall j | k < j < |es| && Counts(es[j]) :: es[j].now < deadline
  }

  lemma PrefixQuiet(es: seq<Event>, k: nat, deadline: int)
    requires k < |es| - 1 && QuietFrom(es, k, deadline)
    ensures QuietFrom(es[..|es| - 1], k, deadline) && (Counts(es[|es| - 1]) ==> es[|es| - 1].now < deadline)
  {
    assert forall i | 0 <= i < |es| - 1 :: es[..|es| - 1][i] == es[i];
  }

  /** And the first request counted from then on starts a new life with count 1, and is admitted if replied to. */
  lemma NextStartsAnew(start: int, es: seq<Event>, k: nat)
    requires Monotone(start, es) && LandsAt(start, es, k) && k < |es| - 1
    requires Counts(es[|es| - 1]) && es[|es| - 1].now >= es[k].now + WINDOW
    requires QuietFrom(es[..|es| - 1], k, es[k].now + WINDOW)
    ensures var log := RunFrom(Init(start), es).log;
      log != [] && Restarted(log[|log| - 1], es[|es| - 1], LifeAt(start, es, k) + 1)
  {
    var init := es[..|es| - 1];
    PrefixLands(start, es, k);
    StillAlive(start, init, k);
    EndsByAfter(start, init, k);
  }

  /** The answer to the request that starts life `life`. */
  predicate Restarted(a: Answer, e: Event, life: nat) {
    a.life == life && a.count == 1 && a.now == e.now && (e.Hit? ==> Admits(a) && a.remaining == DEFAULT_RPM - 1)
  }

  lemma {:induction false} StillAlive(start: int, es: seq<Event>, k: nat)
    requires Monotone(start, es) && LandsAt(start, es, k)
    requires QuietFrom(es, k, es[k].now + WINDOW)
    ensures RunFrom(Init(start), es).life == LifeAt(start, es, k)
  {
    var last := |es| - 1;
    if k < last {
      PrefixLands(start, es, k);
      PrefixQuiet(es, k, es[k].now + WINDOW);
      StillAlive(start, es[..last], k);
      EndsByAfter(start, es[..last], k);
      StaysAlive(RunFrom(Init(start), es[..last]), es[last], LifeAt(start, es, k), es[k].now + WINDOW);
    }
  }

  // ---- When the EXPIRE is lost ----

  /**
   If the first hit's EXPIRE is lost, the key never recovers: once at the limit, every later
   request whose count the limiter learns is refused.
   */
  lemma {:induction false} LostExpiryLocksOut(s: State, es: seq<Event>)
    requires s.counter.Counting? && s.counter.expires.Never? && s.owing == {} && s.counter.count >= DEFAULT_RPM
    ensures var t := RunFrom(s, es);
      && t.counter.Counting? && t.counter.expires.Never? && t.owing == {} && t.counter.count >= DEFAULT_RPM
      && s.log <= t.log && forall i | |s.log| <= i < |t.log| :: !Admits(t.log[i])
  {
    if es != [] { LostExpiryLocksOut(s, es[..|es| - 1]); }
  }

  ghost predicate AdmitsLater(s: State, es: seq<Event>) {
    && Monotone(s.clock, es)
    && var log := RunFrom(s, es).log; exists i :: |s.log| <= i < |log| && Admits(log[i])
  }

  /** A key at the limit, with no EXPIRE outstanding, ever admits a request again exactly when an expiry was set. */
  lemma RecoversIffExpirySet(s: State)
    requires s.counter.Counting? && s.counter.count >= DEFAULT_RPM && s.owing == {}
    ensures (exists es :: AdmitsLater(s, es)) <==> s.counter.expires.At?
  {
    if s.counter.expires.At? {
      var e := Hit(0, if s.clock < s.counter.expires.time then s.counter.expires.time else s.clock);
      OneStep(s, e);
      assert Admits(RunFrom(s, [e]).log[|s.log|]);
      assert AdmitsLater(s, [e]);
    } else {
      forall es ensures !AdmitsLater(s, es) { LostExpiryLocksOut(s, es); }
    }
  }

  /** Sixty hits whose one EXPIRE is lost lock a key out; so does a lost reply to the first INCR. */
  lemma LockoutIsReachable()
    ensures RunFrom(Init(0), [Hit(0, 0)] + HitsAt(59, 0) + [ExpireLost(0, 0)]).counter == Counting(60, Never)
    ensures RunFrom(Init(0), [Hit(0, 0)] + HitsAt(59, 0) + [ExpireLost(0, 0)]).owing == {}
    ensures RunFrom(Init(0), [HitFails(0, true)] + HitsAt(59, 0)).counter == Counting(60, Never)
    ensures RunFrom(Init(0), [HitFails(0, true)] + HitsAt(59, 0)).owing == {}
  {
    FewHits(60);
    RunFromSplits(Init(0), [Hit(0, 0)] + HitsAt(59, 0), [ExpireLost(0, 0)]);
    OneStep(RunFrom(Init(0), [Hit(0, 0)] + HitsAt(59, 0)), ExpireLost(0, 0));
    RunFromSplits(Init(0), [HitFails(0, true)], HitsAt(59, 0));
    OneStep(Init(0), HitFails(0, true));
    HitsAdd(RunFrom(Init(0), [HitFails(0, true)]), 59, 0);
  }

  // ---- The handler ----

  class Limiter {
    var counter: Counter
    var owing: set<Request>
    ghost var life: nat
    ghost var clock: int
    ghost var log: seq<Answer>

    constructor (ghost start: int)
      ensures View() == Init(start)
    {
      counter, owing, life, clock, log := Absent, {}, 0, start, [];
    }

    ghost function View(): State
      reads this
    {
      State(counter, life, owing, clock, log)
    }

    /** Increments the stored counter, which an expired or missing key starts at one. */
    method Incr(now: int) returns (count: nat)
      modifies this`counter
      ensures count == (if Live(old(counter), now).Absent? then 1 else old(counter).count + 1)
      ensures counter == Counting(count, if Live(old(counter), now).Absent? then Never else old(counter).expires)
    {
      if counter.Absent? || (counter.expires.At? && now >= counter.expires.time) {
        counter := Counting(1, Never);
      } else {
        counter := counter.(count := counter.count + 1);
      }
      count := counter.count;
    }

    /** One request; the INCR or its reply may fail, before or after it was `applied`.  The limiter fails open. */
    method Handle(request: Request, now: int, incrFails: bool, applied: bool) returns (admitted: bool, remaining: int)
      modifies this
      ensures View() == Next(old(View()), if incrFails then HitFails(now, applied) else Hit(request, now))
      ensures incrFails ==> admitted
      ensures Live(old(counter), now).Counting? ==> counter.Counting? && counter.expires == old(counter).expires
      ensures !incrFails ==> log[|log| - 1].admitted == admitted && log[|log| - 1].remaining == remaining
    {
      clock := now;
      if incrFails && !applied { return true, 0; }
      ghost var starts := Live(counter, now).Absent?;
      var count := Incr(now);
      if starts { life := life + 1; }
      if incrFails {
        log := log + [Answer(now, life, count, false, true, 0)];
        return true, 0;
      }
      if count == 1 { owing := owing + {request}; }
      remaining := DEFAULT_RPM - count;
      if remaining < 0 { remaining := 0; }
      admitted := !(count > DEFAULT_RPM);
      log := log + [Answer(now, life, count, true, admitted, remaining)];
    }

    /** The EXPIRE a first hit owes takes effect. */
    method ExpireLands(request: Request, now: int)
      modifies this
      ensures View() == Next(old(View()), Expire(request, now))
    {
      if request in owing {
        counter := Live(counter, now);
        if counter.Counting? { counter := counter.(expires := At(now + WINDOW)); }
        owing, clock := owing - {request}, now;
      }
    }
  }
}
