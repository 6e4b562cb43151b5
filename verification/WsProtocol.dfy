/**
 The WebSocket fan-out: one hub event loop, and for every client a bounded queue and a
 write pump.  A client's life is a sequence of steps, each an atomic action of the hub or of
 that client's pump; the steps of other clients appear as `Skip`.
 */
module WsProtocol {

  const QUEUE_CAPACITY := 256

  type Message = string

  // ---- Splitting a text frame at newlines ----

  /** The pieces of `s` between newlines: one more than there are newlines. */
  function Split(s: string): (r: seq<string>)
    ensures |r| > 0
  {
    if s == "" then [""]
    else
      var r := Split(s[..|s| - 1]);
      if s[|s| - 1] == '\n' then r + [""]
      else r[..|r| - 1] + [r[|r| - 1] + [s[|s| - 1]]]
  }

  function SplitAll(frames: seq<string>): seq<string> {
    if frames == [] then [] else SplitAll(frames[..|frames| - 1]) + Split(frames[|frames| - 1])
  }

  function Join(pieces: seq<string>): string {
    if pieces == [] then "" else if |pieces| == 1 then pieces[0]
    else Join(pieces[..|pieces| - 1]) + "\n" + pieces[|pieces| - 1]
  }

  predicate NewlineFree(m: Message) { '\n' !in m }

  /** `Split` really is the split at newlines: the pieces contain none, and joining them gives the text back. */
  lemma {:induction false} SplitPieces(s: string)
    ensures forall p | p in Split(s) :: NewlineFree(p)
    ensures Join(Split(s)) == s
  {
    if s != "" {
      var init, c, r := s[..|s| - 1], s[|s| - 1], Split(s[..|s| - 1]);
      SplitPieces(init);
      if c == '\n' {
        assert (r + [""])[..|r|] == r;
        assert Join(r + [""]) == init + "\n" + "";
      } else {
        var r' := r[..|r| - 1] + [r[|r| - 1] + [c]];
        assert r'[..|r'| - 1] == r[..|r| - 1];
        assert NewlineFree(r[|r| - 1]);
        assert Join(r') == Join(r) + [c];
      }
      assert s == init + [c];
    }
  }

  lemma {:induction false} SplitOne(m: Message)
    requires NewlineFree(m)
    ensures Split(m) == [m]
  {
    if m != "" {
      SplitOne(m[..|m| - 1]);
      assert m == m[..|m| - 1] + [m[|m| - 1]];
    }
  }

  /** Writing a newline and one more newline-free message adds exactly one piece. */
  lemma {:induction false} SplitAppend(frame: string, m: Message)
    requires NewlineFree(m)
    ensures Split(frame + "\n" + m) == Split(frame) + [m]
  {
    var s := frame + "\n" + m;
    if m == "" {
      assert s[..|s| - 1] == frame;
    } else {
      var m', c := m[..|m| - 1], m[|m| - 1];
      SplitAppend(frame, m');
      assert s[..|s| - 1] == frame + "\n" + m';
      assert m == m' + [c];
    }
  }

  // ---- One client ----

  /** Where the write pump of a client stands. */
  datatype Pump =
    | Waiting                           // at the select
    | Opened(frame: string)             // first message written, len(send) not read yet
    | Draining(frame: string, left: nat)
    | Stopped

  /**
   A client as hub and pump see it.  `fault` records what would be a Go panic (a send on or a
   close of a closed channel) or an inner drain that finds the queue empty.
   `enqueued` is the history of everything ever sent on the channel.
   */
  datatype ClientState = ClientState(
    member: bool, open: bool, subscriptions: set<string>, queue: seq<Message>,
    pump: Pump, frames: seq<string>, closeFrame: bool, broken: bool,
    fault: bool, enqueued: seq<Message>)

  const NEW_CLIENT := ClientState(false, true, {}, [], Waiting, [], false, false, false, [])

  datatype Step =
    | Register
    | Unregister
    | Subscribe(markets: seq<string>)
    | Broadcast(data: Message, market: string)
    | Write(ok: bool)                   // the pump advances; ok is the outcome of its I/O, if any
    | Tick(ok: bool)                    // the pump's ping timer fires
    | Skip

  function NonEmpty(markets: seq<string>): set<string> { set m | m in markets && m != "" }

  predicate Matches(filter: set<string>, market: string) {
    filter == {} || market == "" || market in filter
  }

  function CloseSend(s: ClientState): ClientState {
    if s.open then s.(member := false, open := false) else s.(member := false, fault := true)
  }

  function Deliver(s: ClientState, data: Message): ClientState {
    if !s.open then s.(fault := true)
    else if |s.queue| < QUEUE_CAPACITY then s.(queue := s.queue + [data], enqueued := s.enqueued + [data])
    else CloseSend(s)
  }

  function PumpStep(s: ClientState, ok: bool): ClientState {
    match s.pump
    case Waiting =>
      if s.queue != [] then
        if ok then s.(queue := s.queue[1..], pump := Opened(s.queue[0]))
        else s.(queue := s.queue[1..], pump := Stopped, broken := true)
      else if !s.open then s.(pump := Stopped, closeFrame := true)
      else s
    case Opened(frame) => s.(pump := Draining(frame, |s.queue|))
    case Draining(frame, left) =>
      if left > 0 then
        if s.queue != [] then s.(queue := s.queue[1..], pump := Draining(frame + "\n" + s.queue[0], left - 1))
        else s.(fault := true)
      else if ok then s.(frames := s.frames + [frame], pump := Waiting)
      else s.(pump := Stopped, broken := true)
    case Stopped => s
  }

  function Next(s: ClientState, e: Step): ClientState {
    match e
    case Register => s.(member := true)
    case Unregister => if s.member then CloseSend(s) else s
    case Subscribe(markets) => if s.member then s.(subscriptions := NonEmpty(markets)) else s
    case Broadcast(data, market) => if s.member && Matches(s.subscriptions, market) then Deliver(s, data) else s
    case Write(ok) => PumpStep(s, ok)
    case Tick(ok) => if s.pump.Waiting? && !ok then s.(pump := Stopped, broken := true) else s
    case Skip => s
  }

  function RunFrom(s: ClientState, es: seq<Step>): ClientState {
    if es == [] then s else Next(RunFrom(s, es[..|es| - 1]), es[|es| - 1])
  }

  function Run(es: seq<Step>): ClientState { RunFrom(NEW_CLIENT, es) }

  // ---- What every run keeps ----

  /** A connection is registered once: each is a new client. */
  predicate RegisteredOnce(es: seq<Step>) {
    forall i, j | 0 <= i < j < |es| :: !(es[i].Register? && es[j].Register?)
  }

  predicate Registered(es: seq<Step>) { exists i | 0 <= i < |es| :: es[i].Register? }

  /** What every reachable state of a client satisfies, given whether it has been registered. */
  predicate Safe(s: ClientState, registered: bool) {
    && !s.fault
    && (s.member <==> registered && s.open)
    && (!registered ==> s.open)
    && |s.queue| <= 256
    && (s.pump.Draining? ==> s.pump.left <= |s.queue|)
  }

  lemma StepIsSafe(s: ClientState, e: Step, registered: bool)
    requires Safe(s, registered) && !(registered && e.Register?)
    ensures Safe(Next(s, e), registered || e.Register?)
  {}

  /**
   No panic and no empty drain in any interleaving; a client is in the hub's set exactly while it
   has been registered and its queue is open; the queue never exceeds its capacity.
   */
  lemma {:induction false} HubSafety(es: seq<Step>)
    requires RegisteredOnce(es)
    ensures Safe(Run(es), Registered(es))
  {
    if es != [] {
      var es', e := es[..|es| - 1], es[|es| - 1];
      HubSafety(es');
      assert es == es' + [e];
      if Registered(es') {
        var i :| 0 <= i < |es'| && es'[i].Register?;
        assert es[i].Register?;
      }
      StepIsSafe(Run(es'), e, Registered(es'));
      if e.Register? { assert es[|es| - 1].Register?; }
    }
  }

  /** The filter in force after `es`, for a client registered at step `r`: the last subscribe since then. */
  function FilterAfter(es: seq<Step>, r: nat): set<string> {
    if |es| <= r + 1 then {}
    else match es[|es| - 1]
      case Subscribe(markets) => NonEmpty(markets)
      case _ => FilterAfter(es[..|es| - 1], r)
  }

  /** The broadcasts of `es` after step `r` that match the filter in force when they were made. */
  function Matching(es: seq<Step>, r: nat): seq<Message> {
    if |es| <= r + 1 then []
    else
      var es' := es[..|es| - 1];
      match es[|es| - 1]
      case Broadcast(data, market) =>
        if Matches(FilterAfter(es', r), market) then Matching(es', r) + [data] else Matching(es', r)
      case _ => Matching(es', r)
  }

  /** Step `k` removes the client: it unregisters, or a matching broadcast meets a full queue. */
  predicate Removes(es: seq<Step>, r: nat, k: nat)
    requires k < |es|
  {
    && Run(es[..k]).member
    && match es[k]
       case Unregister => true
       case Broadcast(_, market) =>
         Matches(FilterAfter(es[..k], r), market) && |Run(es[..k]).queue| == QUEUE_CAPACITY
       case _ => false
  }

  /** What was enqueued is what matched up to step `k`, where the client was removed (or the run ends). */
  predicate DeliveredUpTo(es: seq<Step>, r: nat, k: nat) {
    && r < k <= |es|
    && Run(es).enqueued == Matching(es[..k], r)
    && (Run(es).member <==> k == |es|)
    && (k < |es| ==> Removes(es, r, k))
  }

  /**
   Gap-free filtered delivery: for every run, the client registered at step `r` is sent, in order and
   without gaps or repeats, exactly the broadcasts that matched its filter between its registration and
   its removal; and it is removed only by unregistering or with a full queue of unread messages.
   */
  lemma {:induction false} ExactDelivery(es: seq<Step>, r: nat)
    requires RegisteredOnce(es) && r < |es| && es[r].Register?
    ensures exists k: nat :: DeliveredUpTo(es, r, k)
    ensures Run(es).member ==> Run(es).subscriptions == FilterAfter(es, r)
  {
    var n := |es| - 1;
    var es' := es[..n];
    if r == n {
      Untouched(es');
      assert es[..|es|] == es;
      assert DeliveredUpTo(es, r, |es|);
    } else {
      assert es'[r] == es[r];
      ExactDelivery(es', r);
      var k: nat :| DeliveredUpTo(es', r, k);
      assert es'[..k] == es[..k];
      MemberIsSafe(es', r);
      if k == n { StillMember(es, r); } else { StayRemoved(es, r, k); }
    }
  }

  lemma MemberIsSafe(es: seq<Step>, r: nat)
    requires RegisteredOnce(es) && r < |es| && es[r].Register?
    ensures Safe(Run(es), true)
  {
    HubSafety(es);
    assert Registered(es);
  }

  /** One more step of a client that was a member: it stays one, or this step removes it. */
  lemma StillMember(es: seq<Step>, r: nat)
    requires r < |es| - 1 && es[r].Register? && RegisteredOnce(es)
    requires var s := Run(es[..|es| - 1]);
      && s.member && s.open && |s.queue| <= QUEUE_CAPACITY
      && s.subscriptions == FilterAfter(es[..|es| - 1], r)
      && s.enqueued == Matching(es[..|es| - 1], r)
    ensures exists k: nat :: DeliveredUpTo(es, r, k)
    ensures Run(es).member ==> Run(es).subscriptions == FilterAfter(es, r)
  {
    var n := |es| - 1;
    assert es[..|es|] == es;
    match es[n] {
      case Broadcast(data, market) =>
      case Write(ok) => PumpFrame(Run(es[..n]), ok);
      case _ =>
    }
    assert DeliveredUpTo(es, r, if Run(es).member then |es| else n);
  }

  /** Out of the hub's set, a client stays out. */
  lemma {:induction false} StaysOut(es: seq<Step>, r: nat, n: nat)
    requires RegisteredOnce(es) && r < n <= |es| && es[r].Register? && !Run(es[..n]).member
    ensures !Run(es).member
  {
    if n == |es| {
      assert es[..n] == es;
    } else {
      assert es[..|es| - 1][..n] == es[..n] && es[..|es| - 1][r] == es[r];
      StaysOut(es[..|es| - 1], r, n);
      OnlyRegisterJoins(Run(es[..|es| - 1]), es[|es| - 1]);
    }
  }

  lemma OnlyRegisterJoins(s: ClientState, e: Step)
    requires !s.member && !e.Register?
    ensures !Next(s, e).member
  {
    if e.Write? { PumpFrame(s, e.ok); }
  }

  /** The client is removed by the first step that removes it: each one before leaves it in. */
  lemma RemovedByFirst(es: seq<Step>, r: nat, k: nat)
    requires RegisteredOnce(es) && r < |es| && es[r].Register? && DeliveredUpTo(es, r, k)
    ensures forall j | r < j < k :: !Removes(es, r, j)
  {
    forall j | r < j < k && Removes(es, r, j) ensures false {
      RemovalRemoves(es, r, j);
      if k < |es| { StaysOutUpTo(es, r, j + 1, k); } else { StaysOut(es, r, j + 1); }
    }
  }

  lemma StaysOutUpTo(es: seq<Step>, r: nat, n: nat, k: nat)
    requires RegisteredOnce(es) && r < n <= k <= |es| && es[r].Register? && !Run(es[..n]).member
    ensures !Run(es[..k]).member
  {
    assert es[..k][..n] == es[..n] && es[..k][r] == es[r];
    StaysOut(es[..k], r, n);
  }

  lemma RemovalRemoves(es: seq<Step>, r: nat, j: nat)
    requires RegisteredOnce(es) && r < j < |es| && es[r].Register? && Removes(es, r, j)
    ensures !Run(es[..j + 1]).member
  {
    assert es[..j][r] == es[r] && es[..j + 1][..j] == es[..j];
    assert forall i | 0 <= i < j :: es[..j][i] == es[i];
    ExactDelivery(es[..j], r);
    MemberIsSafe(es[..j], r);
    assert Run(es[..j + 1]) == Next(Run(es[..j]), es[j]);
  }

  /** A filter lets through what is addressed to all, and what is addressed to one of the markets it names, if any. */
  lemma MatchesIff(markets: seq<string>, market: string)
    ensures Matches(NonEmpty(markets), market) <==>
      market == "" || market in markets || forall m | m in markets :: m == ""
    ensures Matches({}, market)
  {
    if m :| m in markets && m != "" { assert m in NonEmpty(markets); }
  }

  lemma PumpFrame(s: ClientState, ok: bool)
    ensures var t := PumpStep(s, ok);
      t.member == s.member && t.open == s.open && t.subscriptions == s.subscriptions && t.enqueued == s.enqueued
  {
    match s.pump
    case Waiting =>
    case Opened(_) =>
    case Draining(_, left) => if left > 0 && s.queue != [] {}
    case Stopped =>
  }

  /** One more step of a client that was removed changes nothing the hub did for it. */
  lemma StayRemoved(es: seq<Step>, r: nat, k: nat)
    requires r < |es| - 1 && es[r].Register? && RegisteredOnce(es)
    requires k < |es| - 1 && DeliveredUpTo(es[..|es| - 1], r, k)
    ensures DeliveredUpTo(es, r, k) && !Run(es).member
  {
    var n := |es| - 1;
    var es' := es[..n];
    assert es'[..k] == es[..k] && es'[k] == es[k];
    match es[n] {
      case Write(ok) => PumpFrame(Run(es'), ok);
      case _ =>
    }
    assert Removes(es', r, k);
  }

  /** Before registration nothing reaches the client. */
  lemma {:induction false} Untouched(es: seq<Step>)
    requires !Registered(es)
    ensures var s := Run(es); !s.member && s.open && s.subscriptions == {} && s.queue == [] && s.enqueued == []
  {
    if es != [] {
      var es' := es[..|es| - 1];
      forall i | 0 <= i < |es'| ensures !es'[i].Register? { assert es[i] == es'[i]; }
      Untouched(es');
    }
  }

  // ---- From the queue to the network ----

  predicate NewlineFreeSteps(es: seq<Step>) {
    forall i | 0 <= i < |es| && es[i].Broadcast? :: NewlineFree(es[i].data)
  }

  /** The messages taken from the queue into the frame being written. */
  function InFlight(p: Pump): seq<Message> {
    match p
    case Opened(frame) => Split(frame)
    case Draining(frame, _) => Split(frame)
    case _ => []
  }

  /** Nothing is lost between queue, frame under construction and network; a clean end comes after everything. */
  predicate Recovers(s: ClientState) {
    && SplitAll(s.frames) <= s.enqueued
    && (!s.broken ==> SplitAll(s.frames) + InFlight(s.pump) + s.queue == s.enqueued)
    && (s.pump.Stopped? && !s.broken ==> s.closeFrame && !s.open && SplitAll(s.frames) == s.enqueued)
    && (s.closeFrame ==> s.pump.Stopped? && !s.broken)
    && (s.broken ==> s.pump.Stopped?)
    && forall m | m in s.queue :: NewlineFree(m)
  }

  lemma StepRecovers(s: ClientState, e: Step)
    requires Recovers(s) && !Next(s, e).fault && (s.member ==> s.open)
    requires e.Broadcast? ==> NewlineFree(e.data)
    ensures Recovers(Next(s, e))
  {
    match e
    case Write(ok) => WriteRecovers(s, ok);
    case Broadcast(data, _) => if s.member { DeliverRecovers(s, data); }
    case _ =>
  }

  lemma WriteRecovers(s: ClientState, ok: bool)
    requires Recovers(s) && !PumpStep(s, ok).fault
    ensures Recovers(PumpStep(s, ok))
  {
    if !s.pump.Stopped? {
      PumpKeepsMessages(s, ok);
      PumpFrame(s, ok);
      var t := PumpStep(s, ok);
      assert SplitAll(s.frames) + InFlight(s.pump) + s.queue == t.enqueued;
      assert !t.broken ==> SplitAll(t.frames) <= t.enqueued;
    }
  }

  lemma DeliverRecovers(s: ClientState, data: Message)
    requires Recovers(s) && s.open && NewlineFree(data)
    ensures Recovers(Deliver(s, data))
  {
    var done := SplitAll(s.frames) + InFlight(s.pump);
    assert done + (s.queue + [data]) == (done + s.queue) + [data];
  }

  /**
   In every interleaving: the frames, split at newlines, give back a prefix of what was enqueued, in order;
   without write errors nothing is lost between queue, frame under construction and network; and a pump that
   ended without an error has sent its close frame after every enqueued message.
   */
  lemma {:induction false} FramesRecoverMessages(es: seq<Step>)
    requires RegisteredOnce(es) && NewlineFreeSteps(es)
    ensures Recovers(Run(es))
  {
    if es != [] {
      var es' := es[..|es| - 1];
      assert forall i | 0 <= i < |es'| :: es'[i] == es[i];
      FramesRecoverMessages(es');
      HubSafety(es');
      HubSafety(es);
      StepRecovers(Run(es'), es[|es| - 1]);
    }
  }

  /** Everything on its way from the queue to the network. */
  function OnTheWay(s: ClientState): seq<Message> { SplitAll(s.frames) + InFlight(s.pump) + s.queue }

  /** One step of a live pump moves messages along without losing, repeating or reordering any. */
  lemma PumpKeepsMessages(s: ClientState, ok: bool)
    requires !s.pump.Stopped? && !PumpStep(s, ok).fault
    requires forall m | m in s.queue :: NewlineFree(m)
    ensures var t := PumpStep(s, ok);
      && (!t.broken ==> OnTheWay(t) == OnTheWay(s))
      && (t.broken && !s.broken ==> t.frames == s.frames)
      && forall m | m in t.queue :: NewlineFree(m)
  {
    match s.pump
    case Waiting => ReceiveKeepsMessages(s, ok);
    case Opened(frame) =>
    case Draining(frame, left) =>
      if left > 0 { DrainKeepsMessages(s, ok); } else if ok { FinishKeepsMessages(s); }
  }

  lemma ReceiveKeepsMessages(s: ClientState, ok: bool)
    requires s.pump.Waiting? && forall m | m in s.queue :: NewlineFree(m)
    ensures !PumpStep(s, ok).broken ==> OnTheWay(PumpStep(s, ok)) == OnTheWay(s)
  {
    if s.queue != [] {
      SplitOne(s.queue[0]);
      MoveHead(SplitAll(s.frames), [], s.queue);
    }
  }

  lemma DrainKeepsMessages(s: ClientState, ok: bool)
    requires s.pump.Draining? && s.pump.left > 0 && s.queue != [] && NewlineFree(s.queue[0])
    ensures OnTheWay(PumpStep(s, ok)) == OnTheWay(s)
  {
    SplitAppend(s.pump.frame, s.queue[0]);
    MoveHead(SplitAll(s.frames), Split(s.pump.frame), s.queue);
  }

  lemma FinishKeepsMessages(s: ClientState)
    requires s.pump.Draining? && s.pump.left == 0
    ensures OnTheWay(PumpStep(s, true)) == OnTheWay(s)
  {
    assert PumpStep(s, true).frames[..|s.frames|] == s.frames;
  }

  lemma MoveHead(done: seq<Message>, frame: seq<Message>, queue: seq<Message>)
    requires queue != []
    ensures done + (frame + [queue[0]]) + queue[1..] == done + frame + queue
  {}

  // ---- Progress of the pump ----

  /** The pump's actions among other steps. */
  function WritesIn(es: seq<Step>): nat {
    if es == [] then 0 else WritesIn(es[..|es| - 1]) + if es[|es| - 1].Write? then 1 else 0
  }

  function Writes(n: nat): seq<Step> { seq(n, (i: nat) => Write(true)) }

  lemma {:induction false} WritesInWrites(n: nat)
    ensures WritesIn(Writes(n)) == n
  {
    if n > 0 {
      assert Writes(n)[..n - 1] == Writes(n - 1);
      WritesInWrites(n - 1);
    }
  }

  lemma {:induction false} RunFromSplits(s: ClientState, es: seq<Step>, fs: seq<Step>)
    ensures RunFrom(s, es + fs) == RunFrom(RunFrom(s, es), fs)
  {
    if fs == [] {
      assert es + fs == es;
    } else {
      assert (es + fs)[..|es + fs| - 1] == es + fs[..|fs| - 1];
      RunFromSplits(s, es, fs[..|fs| - 1]);
    }
  }

  lemma OneStep(s: ClientState, e: Step)
    ensures RunFrom(s, [e]) == Next(s, e)
  {
    assert [e][..0] == [];
  }

  lemma JoinMore(done: seq<Message>, m: Message)
    requires done != []
    ensures Join(done + [m]) == Join(done) + "\n" + m
  {
    assert (done + [m])[..|done|] == done;
  }

  /** What is in the queue: the rest of what was there, then what has been enqueued since. */
  predicate Left(s: ClientState, t: ClientState, taken: nat) {
    && taken <= |s.queue| && s.enqueued <= t.enqueued
    && t.queue == s.queue[taken..] + t.enqueued[|s.enqueued|..]
  }

  /** A step of the hub leaves the pump alone and only adds to the queue. */
  lemma HubStepAdds(s: ClientState, t: ClientState, e: Step, taken: nat)
    requires !e.Write? && !t.pump.Waiting? && Left(s, t, taken)
    ensures var u := Next(t, e); u.pump == t.pump && u.frames == t.frames && u.broken == t.broken && Left(s, u, taken)
  {}

  /**
   While a frame is drained, whatever else happens: each action of the pump adds the next message of those that
   were in the queue when its length was read.
   */
  lemma {:induction false} Drains(s: ClientState, es: seq<Step>, done: seq<Message>)
    requires s.pump.Draining? && done != [] && s.pump.frame == Join(done)
    requires WritesIn(es) <= s.pump.left <= |s.queue|
    ensures var t, n := RunFrom(s, es), WritesIn(es);
      && t.pump == Draining(Join(done + s.queue[..n]), s.pump.left - n)
      && t.frames == s.frames && t.broken == s.broken && Left(s, t, n)
  {
    if es == [] {
      assert done + s.queue[..0] == done;
    } else {
      var init, e := es[..|es| - 1], es[|es| - 1];
      Drains(s, init, done);
      var t, n := RunFrom(s, init), WritesIn(init);
      if e.Write? { DrainOne(s, t, e.ok, done, n); } else { HubStepAdds(s, t, e, n); }
    }
  }

  lemma DrainOne(s: ClientState, t: ClientState, ok: bool, done: seq<Message>, n: nat)
    requires done != [] && n < |s.queue| && Left(s, t, n)
    requires t.pump.Draining? && t.pump.frame == Join(done + s.queue[..n]) && t.pump.left > 0
    ensures var u := PumpStep(t, ok);
      && u.pump == Draining(Join(done + s.queue[..n + 1]), t.pump.left - 1)
      && u.frames == t.frames && u.broken == t.broken && Left(s, u, n + 1)
  {
    assert t.queue[0] == s.queue[n] && t.queue[1..] == s.queue[n + 1..] + t.enqueued[|s.enqueued|..];
    JoinMore(done + s.queue[..n], s.queue[n]);
    assert done + s.queue[..n] + [s.queue[n]] == done + s.queue[..n + 1];
  }

  /**
   The next frame: from the moment its first message is taken and the queue's length is read, the pump writes that
   message and all then queued in one frame, however the hub interferes; what is enqueued meanwhile is what the
   queue holds afterwards, for the frame after.
   */
  lemma NextFrame(s: ClientState, es: seq<Step>, ok: bool, m: Message)
    requires s.pump == Opened(m) && WritesIn(es) == |s.queue|
    ensures var t := RunFrom(s, [Write(ok)] + es + [Write(true)]);
      && t.frames == s.frames + [Join([m] + s.queue)] && t.pump == Waiting && t.broken == s.broken
      && s.enqueued <= t.enqueued && t.queue == t.enqueued[|s.enqueued|..]
  {
    var u := Next(s, Write(ok));
    OneStep(s, Write(ok));
    RunFromSplits(s, [Write(ok)], es);
    assert Join([m]) == m;
    Drains(u, es, [m]);
    assert s.queue[..|s.queue|] == s.queue;
    RunFromSplits(s, [Write(ok)] + es, [Write(true)]);
    OneStep(RunFrom(u, es), Write(true));
  }

  /** Undisturbed, a waiting pump writes all that is queued as one frame in two actions more than there are messages. */
  lemma BatchIsWritten(s: ClientState)
    requires s.pump.Waiting? && s.queue != []
    ensures var t := RunFrom(s, Writes(|s.queue| + 2));
      && t.pump == Waiting && t.queue == [] && t.frames == s.frames + [Join(s.queue)] && t.broken == s.broken
      && SameForHub(s, t)
  {
    var n := |s.queue| - 1;
    var u, rest := Next(s, Write(true)), [Write(true)] + Writes(n) + [Write(true)];
    WritesInWrites(n);
    NextFrame(u, Writes(n), true, s.queue[0]);
    assert [s.queue[0]] + s.queue[1..] == s.queue;
    OnlyPump(u, rest);
    PumpFrame(s, true);
    StepThenRun(s, Write(true), rest);
    assert [Write(true)] + rest == Writes(n + 3);
  }

  lemma StepThenRun(s: ClientState, e: Step, es: seq<Step>)
    ensures RunFrom(s, [e] + es) == RunFrom(Next(s, e), es)
  {
    OneStep(s, e);
    RunFromSplits(s, [e], es);
  }

  /** The hub's part of a client. */
  predicate SameForHub(s: ClientState, t: ClientState) {
    t.member == s.member && t.open == s.open && t.subscriptions == s.subscriptions && t.enqueued == s.enqueued
  }

  /** The pump's own actions leave it as it is. */
  lemma {:induction false} OnlyPump(s: ClientState, es: seq<Step>)
    requires forall i | 0 <= i < |es| :: es[i] == Write(true)
    ensures SameForHub(s, RunFrom(s, es))
  {
    if es != [] {
      OnlyPump(s, es[..|es| - 1]);
      PumpFrame(RunFrom(s, es[..|es| - 1]), true);
    }
  }

  /** With nothing queued the pump waits while the queue is open, and ends with a close frame once it is closed. */
  lemma {:induction false} NothingQueued(s: ClientState, n: nat)
    requires s.pump.Waiting? && s.queue == []
    ensures RunFrom(s, Writes(n)) == if s.open || n == 0 then s else s.(pump := Stopped, closeFrame := true)
  {
    if n > 0 {
      assert Writes(n)[..n - 1] == Writes(n - 1);
      NothingQueued(s, n - 1);
    }
  }

  lemma {:induction false} StoppedStays(s: ClientState, n: nat)
    requires s.pump.Stopped?
    ensures RunFrom(s, Writes(n)) == s
  {
    if n > 0 {
      assert Writes(n)[..n - 1] == Writes(n - 1);
      StoppedStays(s, n - 1);
    }
  }

  lemma WritesSplit(s: ClientState, m: nat, n: nat)
    ensures RunFrom(s, Writes(m + n)) == RunFrom(RunFrom(s, Writes(m)), Writes(n))
  {
    assert Writes(m + n) == Writes(m) + Writes(n);
    RunFromSplits(s, Writes(m), Writes(n));
  }

  /** The pump has written all that was queued, and waits. */
  predicate CaughtUp(s: ClientState, t: ClientState) {
    t.pump == Waiting && t.queue == [] && t.broken == s.broken && SameForHub(s, t)
  }

  /** From any state but a stopped one the pump catches up, in at most three actions more than there are messages. */
  lemma CatchesUp(s: ClientState) returns (k: nat)
    requires !s.pump.Stopped? && (s.pump.Draining? ==> s.pump.left <= |s.queue|)
    ensures k <= |s.queue| + 3 && CaughtUp(s, RunFrom(s, Writes(k)))
  {
    match s.pump
    case Waiting => k := WaitingCatchesUp(s);
    case Opened(m) =>
      k := |s.queue| + 2;
      OpenedCatchesUp(s, m);
    case Draining(_, _) => k := DrainingCatchesUp(s);
  }

  lemma DrainingCatchesUp(s: ClientState) returns (k: nat)
    requires s.pump.Draining? && s.pump.left <= |s.queue|
    ensures k <= |s.queue| + 3 && CaughtUp(s, RunFrom(s, Writes(k)))
  {
    var m := s.pump.left + 1;
    FrameEnds(s);
    var n := WaitingCatchesUp(RunFrom(s, Writes(m)));
    WritesSplit(s, m, n);
    k := m + n;
  }

  lemma WaitingCatchesUp(s: ClientState) returns (k: nat)
    requires s.pump.Waiting?
    ensures k <= |s.queue| + 2 && CaughtUp(s, RunFrom(s, Writes(k)))
  {
    if s.queue == [] {
      k := 0;
      NothingQueued(s, 0);
    } else {
      k := |s.queue| + 2;
      BatchIsWritten(s);
    }
  }

  lemma OpenedCatchesUp(s: ClientState, m: Message)
    requires s.pump == Opened(m)
    ensures CaughtUp(s, RunFrom(s, Writes(|s.queue| + 2)))
  {
    var n := |s.queue|;
    WritesInWrites(n);
    NextFrame(s, Writes(n), true, m);
    assert [Write(true)] + Writes(n) + [Write(true)] == Writes(n + 2);
    OnlyPump(s, Writes(n + 2));
  }

  lemma FrameEnds(s: ClientState)
    requires s.pump.Draining? && s.pump.left <= |s.queue|
    ensures var t := RunFrom(s, Writes(s.pump.left + 1));
      && t.pump == Waiting && |t.queue| == |s.queue| - s.pump.left && t.broken == s.broken && SameForHub(s, t)
  {
    var left := s.pump.left;
    OnlyPump(s, Writes(left + 1));
    WritesInWrites(left);
    OnlyPump(s, Writes(left));
    assert Join([s.pump.frame]) == s.pump.frame;
    Drains(s, Writes(left), [s.pump.frame]);
    OneStep(RunFrom(s, Writes(left)), Write(true));
    assert Writes(1) == [Write(true)];
    WritesSplit(s, left, 1);
  }

  /**
   Delivery: in any run without a failed write, once the pump has had as many undisturbed actions as a full queue
   can need, everything enqueued has been written; and a client whose queue was closed has had its close frame.
   */
  lemma EventuallyDelivered(es: seq<Step>, n: nat)
    requires RegisteredOnce(es) && NewlineFreeSteps(es) && n >= QUEUE_CAPACITY + 4 && !Run(es).broken
    ensures var t := Run(es + Writes(n));
      && SplitAll(t.frames) == t.enqueued == Run(es).enqueued && !t.broken
      && (!Run(es).open ==> t.closeFrame && t.pump.Stopped?)
  {
    var s := Run(es);
    HubSafety(es);
    FramesRecoverMessages(es);
    RunFromSplits(NEW_CLIENT, es, Writes(n));
    if s.pump.Stopped? {
      StoppedStays(s, n);
    } else {
      LiveDelivers(es, n);
    }
  }

  lemma LiveDelivers(es: seq<Step>, n: nat)
    requires RegisteredOnce(es) && NewlineFreeSteps(es) && n >= QUEUE_CAPACITY + 4
    requires !Run(es).broken && !Run(es).pump.Stopped?
    ensures var s, t := Run(es), RunFrom(Run(es), Writes(n));
      && SplitAll(t.frames) == t.enqueued == s.enqueued && !t.broken && (!s.open ==> t.closeFrame && t.pump.Stopped?)
  {
    HubSafety(es);
    var k := CatchesUp(Run(es));
    CaughtUpRecovers(es, k);
    ThenNothing(Run(es), k, n);
  }

  /** Once caught up, further actions write nothing but a close frame. */
  lemma ThenNothing(s: ClientState, k: nat, n: nat)
    requires k < n && CaughtUp(s, RunFrom(s, Writes(k)))
    ensures var u, t := RunFrom(s, Writes(k)), RunFrom(s, Writes(n));
      && t.frames == u.frames && t.enqueued == u.enqueued == s.enqueued && t.broken == u.broken
      && (!s.open ==> t.closeFrame && t.pump.Stopped?)
  {
    var u, m := RunFrom(s, Writes(k)), n - k;
    WritesSplit(s, k, m);
    assert RunFrom(s, Writes(n)) == RunFrom(u, Writes(m)) by { assert k + m == n; }
    NothingQueued(u, m);
  }

  /** Where the pump has caught up, the frames hold everything. */
  lemma CaughtUpRecovers(es: seq<Step>, k: nat)
    requires RegisteredOnce(es) && NewlineFreeSteps(es)
    requires var u := RunFrom(Run(es), Writes(k)); u.pump.Waiting? && u.queue == [] && !u.broken
    ensures var u := RunFrom(Run(es), Writes(k)); SplitAll(u.frames) == u.enqueued
  {
    var fs := es + Writes(k);
    RunFromSplits(NEW_CLIENT, es, Writes(k));
    assert forall i | |es| <= i < |fs| :: fs[i] == Write(true);
    assert forall i | 0 <= i < |es| :: fs[i] == es[i];
    FramesRecoverMessages(fs);
  }

  // ---- Failing I/O ----

  lemma {:induction false} StaysBroken(es: seq<Step>, n: nat)
    requires n <= |es| && Run(es[..n]).broken && Run(es[..n]).pump.Stopped?
    ensures Run(es).broken && Run(es).pump.Stopped?
  {
    if n == |es| {
      assert es[..n] == es;
    } else {
      assert es[..|es| - 1][..n] == es[..n];
      StaysBroken(es[..|es| - 1], n);
    }
  }

  predicate NoFailure(e: Step) { e != Write(false) && e != Tick(false) }

  /** Only a failed write or ping ends a pump without a close frame. */
  lemma {:induction false} OnlyFailuresBreak(es: seq<Step>)
    requires forall e | e in es :: NoFailure(e)
    ensures !Run(es).broken
  {
    if es != [] {
      assert forall e | e in es[..|es| - 1] :: e in es;
      assert es[|es| - 1] in es;
      OnlyFailuresBreak(es[..|es| - 1]);
    }
  }

  /** The pump's next action is an operation on the connection other than filling a frame in memory. */
  predicate UsesConnection(s: ClientState) {
    (s.pump.Waiting? && s.queue != []) || (s.pump.Draining? && s.pump.left == 0)
  }

  /** After a failed operation, whatever happens, the pump never writes again. */
  lemma {:induction false} NothingAfterFailure(s: ClientState, e: Step, es: seq<Step>)
    requires (e == Write(false) && UsesConnection(s)) || (e == Tick(false) && s.pump.Waiting?)
    ensures var t := RunFrom(Next(s, e), es);
      t.pump.Stopped? && t.broken && t.frames == s.frames && t.closeFrame == s.closeFrame
  {
    if es != [] { NothingAfterFailure(s, e, es[..|es| - 1]); }
  }
}
