/** The hub's event loop and the write pump over mutable clients, proved against the steps of `WsProtocol`. */
module HubLoop {
  import opened WsProtocol

  /** A connection: its send channel (buffer, open flag), subscriptions and write pump. */
  class Client {
    var queue: seq<Message>
    var open: bool
    var subscriptions: set<string>
    var pump: Pump
    var frames: seq<string>
    var closeFrame: bool
    var broken: bool
    var fault: bool
    ghost var enqueued: seq<Message>

    constructor ()
      ensures queue == [] && open && subscriptions == {} && pump == Waiting
      ensures frames == [] && !closeFrame && !broken && !fault && enqueued == []
    {
      queue, open, subscriptions, pump := [], true, {}, Waiting;
      frames, closeFrame, broken, fault, enqueued := [], false, false, false, [];
    }

    ghost function State(member: bool): ClientState
      reads this
    {
      ClientState(member, open, subscriptions, queue, pump, frames, closeFrame, broken, fault, enqueued)
    }

    /** Closing a closed channel panics. */
    method Close()
      modifies this`open, this`fault
      ensures State(false) == CloseSend(old(State(true)))
    {
      if open { open := false; } else { fault := true; }
    }

    /** The pump's select, drain loop and frame writer, one atomic action at a time. */
    method Write(ok: bool)
      modifies this
      ensures forall member :: State(member) == Next(old(State(member)), Step.Write(ok))
    {
      match pump {
        case Waiting =>
          if queue != [] {
            var message := queue[0];
            queue := queue[1..];
            if ok { pump := Opened(message); } else { pump, broken := Stopped, true; }
          } else if !open {
            closeFrame, pump := true, Stopped;
          }
        case Opened(frame) =>
          pump := Draining(frame, |queue|);
        case Draining(frame, left) =>
          if left > 0 {
            if queue == [] {
              fault := true;
            } else {
              pump := Draining(frame + "\n" + queue[0], left - 1);
              queue := queue[1..];
            }
          } else if ok {
            frames, pump := frames + [frame], Waiting;
          } else {
            pump, broken := Stopped, true;
          }
        case Stopped =>
      }
    }

    method Tick(ok: bool)
      modifies this
      ensures forall member :: State(member) == Next(old(State(member)), Step.Tick(ok))
    {
      if pump.Waiting? && !ok { pump, broken := Stopped, true; }
    }
  }

  /** What the scheduler lets happen next, anywhere in the system. */
  datatype Event =
    | Register(client: Client)
    | Unregister(client: Client)
    | Subscribe(client: Client, markets: seq<string>)
    | Broadcast(data: Message, market: string)
    | Write(client: Client, ok: bool)
    | Tick(client: Client, ok: bool)

  /** The event as client `c` experiences it. */
  ghost function StepOf(e: Event, c: Client): Step {
    match e
    case Register(d) => if d == c then Step.Register else Skip
    case Unregister(d) => if d == c then Step.Unregister else Skip
    case Subscribe(d, markets) => if d == c then Step.Subscribe(markets) else Skip
    case Broadcast(data, market) => Step.Broadcast(data, market)
    case Write(d, ok) => if d == c then Step.Write(ok) else Skip
    case Tick(d, ok) => if d == c then Step.Tick(ok) else Skip
  }

  ghost function StepsOf(es: seq<Event>, c: Client): (r: seq<Step>)
    ensures |r| == |es|
    ensures forall i | 0 <= i < |es| :: r[i] == StepOf(es[i], c)
  {
    if es == [] then [] else StepsOf(es[..|es| - 1], c) + [StepOf(es[|es| - 1], c)]
  }

  predicate Concerns(e: Event, clients: set<Client>) {
    e.Broadcast? || e.client in clients
  }

  class Hub {
    var clients: set<Client>

    constructor ()
      ensures clients == {}
    {
      clients := {};
    }

    ghost function StateOf(c: Client): ClientState
      reads this, c
    {
      c.State(c in clients)
    }

    /** The register step of this client; what the hub holds of every other one stays as it is. */
    method Register(c: Client)
      modifies this
      ensures StateOf(c) == Next(old(StateOf(c)), Step.Register)
      ensures forall d: Client | old(allocated(d)) && d != c :: StateOf(d) == old(StateOf(d))
      ensures clients == old(clients) + {c}
    {
      clients := clients + {c};
    }

    method Unregister(c: Client)
      modifies this, c
      ensures clients == old(clients) - {c}
      ensures StateOf(c) == Next(old(StateOf(c)), Step.Unregister)
    {
      if c in clients {
        clients := clients - {c};
        c.Close();
      }
    }

    method Subscribe(c: Client, markets: seq<string>)
      modifies c
      ensures StateOf(c) == Next(old(StateOf(c)), Step.Subscribe(markets))
    {
      if c in clients {
        var filter: set<string> := {};
        for i := 0 to |markets|
          invariant filter == NonEmpty(markets[..i])
        {
          if markets[i] != "" { filter := filter + {markets[i]}; }
          assert markets[..i + 1] == markets[..i] + [markets[i]];
        }
        assert markets[..|markets|] == markets;
        c.subscriptions := filter;
      }
    }

    /** The clients are visited in an arbitrary order and dropped on the way; each ends as if it were alone. */
    method Broadcast(data: Message, market: string)
      modifies this, clients
      ensures clients <= old(clients)
      ensures forall c | c in old(clients) :: StateOf(c) == Next(old(StateOf(c)), Step.Broadcast(data, market))
    {
      var pending := clients;
      while pending != {}
        invariant pending <= clients <= old(clients)
        invariant forall c | c in pending :: StateOf(c) == old(StateOf(c))
        invariant forall c | c in old(clients) - pending ::
            StateOf(c) == Next(old(StateOf(c)), Step.Broadcast(data, market))
      {
        var c :| c in pending;
        pending := pending - {c};
        if c.subscriptions != {} && market != "" && market !in c.subscriptions {
          continue;
        }
        if !c.open {
          c.fault := true;
        } else if |c.queue| < QUEUE_CAPACITY {
          c.queue := c.queue + [data];
          c.enqueued := c.enqueued + [data];
        } else {
          c.Close();
          clients := clients - {c};
        }
      }
    }

    method Perform(e: Event, ghost universe: set<Client>)
      requires clients <= universe && Concerns(e, universe)
      modifies this, universe
      ensures clients <= universe
      ensures forall c | c in universe :: StateOf(c) == Next(old(StateOf(c)), StepOf(e, c))
    {
      match e
      case Register(c) => Register(c);
      case Unregister(c) => Unregister(c);
      case Subscribe(c, markets) => Subscribe(c, markets);
      case Broadcast(data, market) => Broadcast(data, market);
      case Write(c, ok) => c.Write(ok);
      case Tick(c, ok) => c.Tick(ok);
    }

    /**
     Any schedule of hub and pump actions, over any set of clients: every client goes through exactly the
     run of its own steps, whatever the other clients do and in whatever order each broadcast visits them.
     */
    method Run(schedule: seq<Event>, ghost universe: set<Client>)
      requires clients <= universe
      requires forall e | e in schedule :: Concerns(e, universe)
      modifies this, universe
      ensures clients <= universe
      ensures forall c | c in universe :: StateOf(c) == RunFrom(old(StateOf(c)), StepsOf(schedule, c))
    {
      for i := 0 to |schedule|
        invariant clients <= universe
        invariant forall c | c in universe :: StateOf(c) == RunFrom(old(StateOf(c)), StepsOf(schedule[..i], c))
      {
        Perform(schedule[i], universe);
        assert schedule[..i + 1][..i] == schedule[..i];
        forall c | c in universe
          ensures RunFrom(old(StateOf(c)), StepsOf(schedule[..i + 1], c))
               == Next(RunFrom(old(StateOf(c)), StepsOf(schedule[..i], c)), StepOf(schedule[i], c))
        {
          assert StepsOf(schedule[..i + 1], c)[..i] == StepsOf(schedule[..i], c);
        }
      }
      assert schedule[..|schedule|] == schedule;
    }

    /** The last `n` events are undisturbed, successful actions of the client's pump. */
    ghost predicate EndsQuietly(schedule: seq<Event>, c: Client, n: nat) {
      n <= |schedule| && forall i | |schedule| - n <= i < |schedule| :: schedule[i] == Event.Write(c, true)
    }

    lemma ServedCompletely(schedule: seq<Event>, c: Client, n: nat)
      requires EndsQuietly(schedule, c, n) && n >= QUEUE_CAPACITY + 4 && !c.broken
      requires RegisteredOnce(StepsOf(schedule, c)) && forall e | e in schedule && e.Broadcast? :: NewlineFree(e.data)
      requires StateOf(c) == WsProtocol.Run(StepsOf(schedule, c))
      ensures SplitAll(c.frames) == c.enqueued && (!c.open ==> c.closeFrame)
    {
      var k := |schedule| - n;
      var es, all := StepsOf(schedule[..k], c), StepsOf(schedule, c);
      assert all[..k] == es && all == es + Writes(n);
      assert forall e | e in schedule[..k] :: e in schedule;
      StepsNewlineFree(schedule[..k], c);
      assert forall i | 0 <= i < |es| :: es[i] == all[i];
      if WsProtocol.Run(es).broken {
        FramesRecoverMessages(es);
        StaysBroken(all, k);
      }
      EventuallyDelivered(es, n);
      RunFromSplits(NEW_CLIENT, es, Writes(n));
      SameQueueOpen(es, n);
    }

    lemma SameQueueOpen(es: seq<Step>, n: nat)
      ensures WsProtocol.Run(es + Writes(n)).open == WsProtocol.Run(es).open
    {
      RunFromSplits(NEW_CLIENT, es, Writes(n));
      OnlyPump(WsProtocol.Run(es), Writes(n));
    }

    /** The client registered by event `r` was sent what matched its filter from then until its removal. */
    ghost predicate DeliveredExactly(c: Client, schedule: seq<Event>, r: nat)
      reads c
    {
      var es := StepsOf(schedule, c);
      exists k: nat :: DeliveredUpTo(es, r, k) && c.enqueued == Matching(es[..k], r)
    }

    lemma ServedExactly(schedule: seq<Event>, c: Client, r: nat)
      requires r < |schedule| && schedule[r] == Event.Register(c) && RegisteredOnce(StepsOf(schedule, c))
      requires StateOf(c) == WsProtocol.Run(StepsOf(schedule, c))
      ensures DeliveredExactly(c, schedule, r)
    {
      var es := StepsOf(schedule, c);
      assert es[r] == StepOf(schedule[r], c);
      ExactDelivery(es, r);
    }

    lemma StepsNewlineFree(schedule: seq<Event>, c: Client)
      requires forall e | e in schedule && e.Broadcast? :: NewlineFree(e.data)
      ensures NewlineFreeSteps(StepsOf(schedule, c))
    {
      var es := StepsOf(schedule, c);
      forall i | 0 <= i < |es| && es[i].Broadcast? ensures NewlineFree(es[i].data) {
        assert es[i] == StepOf(schedule[i], c) && schedule[i] in schedule;
      }
    }

    lemma ServedSafely(schedule: seq<Event>, c: Client)
      requires RegisteredOnce(StepsOf(schedule, c)) && forall e | e in schedule && e.Broadcast? :: NewlineFree(e.data)
      requires StateOf(c) == WsProtocol.Run(StepsOf(schedule, c))
      ensures !c.fault && |c.queue| <= QUEUE_CAPACITY
      ensures c in clients <==> Registered(StepsOf(schedule, c)) && c.open
      ensures SplitAll(c.frames) <= c.enqueued && (c.closeFrame ==> SplitAll(c.frames) == c.enqueued)
    {
      var es := StepsOf(schedule, c);
      StepsNewlineFree(schedule, c);
      HubSafety(es);
      FramesRecoverMessages(es);
    }

    /**
     The whole protocol, from an empty hub and new connections that each register once: after any schedule no
     channel was used after closing or closed twice, no drain found an empty queue, members are exactly the
     registered clients whose queue is open, each client was sent exactly the broadcasts that matched its filter
     from its registration to its removal, and its frames split into a prefix of those, into all of them once its
     pump has had enough undisturbed actions and no failure.
     */
    method Serve(schedule: seq<Event>, ghost universe: set<Client>)
      requires clients == {} && forall c | c in universe :: c.State(false) == NEW_CLIENT
      requires forall e | e in schedule :: Concerns(e, universe)
      requires forall c | c in universe :: RegisteredOnce(StepsOf(schedule, c))
      requires forall e | e in schedule && e.Broadcast? :: NewlineFree(e.data)
      modifies this, universe
      ensures forall c | c in universe ::
        && !c.fault && |c.queue| <= QUEUE_CAPACITY
        && (c in clients <==> Registered(StepsOf(schedule, c)) && c.open)
        && SplitAll(c.frames) <= c.enqueued
        && (c.closeFrame ==> SplitAll(c.frames) == c.enqueued)
      ensures forall c, r | c in universe && 0 <= r < |schedule| && schedule[r] == Event.Register(c) ::
        DeliveredExactly(c, schedule, r)
      ensures forall c, n: nat | c in universe && n >= QUEUE_CAPACITY + 4 && EndsQuietly(schedule, c, n) && !c.broken ::
        SplitAll(c.frames) == c.enqueued && (!c.open ==> c.closeFrame)
    {
      Run(schedule, universe);
      forall c | c in universe
        ensures !c.fault && |c.queue| <= QUEUE_CAPACITY
        ensures c in clients <==> Registered(StepsOf(schedule, c)) && c.open
        ensures SplitAll(c.frames) <= c.enqueued && (c.closeFrame ==> SplitAll(c.frames) == c.enqueued)
      {
        ServedSafely(schedule, c);
      }
      forall c, r | c in universe && 0 <= r < |schedule| && schedule[r] == Event.Register(c)
        ensures DeliveredExactly(c, schedule, r)
      {
        ServedExactly(schedule, c, r);
      }
      forall c, n: nat | c in universe && n >= QUEUE_CAPACITY + 4 && EndsQuietly(schedule, c, n) && !c.broken
        ensures SplitAll(c.frames) == c.enqueued && (!c.open ==> c.closeFrame)
      {
        ServedCompletely(schedule, c, n);
      }
    }
  }
}
