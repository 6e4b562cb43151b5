/**
 Runs of the stream worker: when a connection's initial subscription is its first message, and what can happen when
 an `AddToken` falls between the unlocked writes of `connect`.
 */
module StreamRuns {
  import opened Options
  import opened StreamWorkers

  ghost predicate Reachable(s: State) { exists es :: Run(es) == s }

  lemma Take(s: State, e: Step) returns (t: State)
    requires Reachable(s)
    ensures t == Next(s, e) && Reachable(t)
  {
    var es :| Run(es) == s;
    t := Next(s, e);
    assert (es + [e])[..|es|] == es;
    assert Run(es + [e]) == t;
  }

  /** The first token, added before there is a client. */
  lemma FirstToken() returns (s: State)
    ensures Reachable(s) && s == INIT.(tokens := {"a"})
  {
    assert Run([]) == INIT;
    s := Take(INIT, AddToken("a"));
    s := Take(s, Add(true));
    assert s.adder == Added("a") && s.mutex.Adder?;
    s := Take(s, Add(true));
    s := Take(s, Add(true));
  }

  /** An undisturbed connect of a worker that is between connections. */
  lemma Connected(s: State) returns (t: State)
    requires Reachable(s) && s.connector.Idle? && s.mutex.Free? && s.tokens != {} && s.dialed !in s.announced
    ensures Reachable(t)
    ensures t == s.(connector := Reading, client := Some(s.dialed), subscribed := true, dialed := s.dialed + 1,
                    announced := s.announced[s.dialed := s.tokens], greeted := s.greeted + {s.dialed})
  {
    t := Take(s, Connect(true));
    t := Take(t, Connect(true));
    assert t == s.(connector := SetClient(s.dialed), dialed := s.dialed + 1);
    t := Take(t, Connect(true));
    t := Take(t, Connect(true));
    assert t == s.(connector := Lock, dialed := s.dialed + 1, client := Some(s.dialed), subscribed := false);
    t := Take(t, Connect(true));
    t := Take(t, Connect(true));
    assert {} + s.tokens == s.tokens;
    t := Take(t, Connect(true));
  }

  /** The connection is lost and dialed anew; an adder that sees `subscribed` still true takes the lock. */
  lemma CaughtRedialing(s: State, token: Token) returns (t: State)
    requires Reachable(s) && s.connector.Reading? && s.mutex.Free? && s.adder.Outside? && token !in s.tokens
    requires s.client.Some? && s.subscribed && s.tokens != {}
    ensures Reachable(t)
    ensures t == s.(connector := SetClient(s.dialed), dialed := s.dialed + 1, tokens := s.tokens + {token},
                    mutex := Adder, adder := LoadForOne(token))
  {
    t := Take(s, Disconnect);
    t := Take(t, Connect(true));
    t := Take(t, Connect(true));
    assert t == s.(connector := SetClient(s.dialed), dialed := s.dialed + 1);
    t := Take(t, AddToken(token));
    t := Take(t, Add(true));
    assert t.adder == Added(token) && t.tokens == s.tokens + {token};
    t := Take(t, Add(true));
    t := Take(t, Add(true));
  }

  /** Now the new client is published, and the adder writes to it. */
  lemma WritesToNewClient(s: State, token: Token, conn: Conn) returns (t: State)
    requires Reachable(s) && s.connector == SetClient(conn) && s.adder == LoadForOne(token) && conn !in s.announced
    ensures Reachable(t) && t.client == Some(conn) && Told(t, conn) == {token}
    ensures t.greeted == s.greeted && t.failed == s.failed
  {
    t := Take(s, Connect(true));
    t := Take(t, Add(true));
    assert t == s.(adder := SendOne(token, conn), client := Some(conn), connector := ClearSubscribed);
    t := Take(t, Add(true));
  }

  /**
   The initial subscription need not be the first message of a connection: a run in which the only thing a live
   connection has been told is a single token, and no write has failed.
   */
  lemma InitialSubscriptionMayComeLate()
    ensures exists s :: Reachable(s) && s.client == Some(1) && Told(s, 1) == {"b"} && 1 !in s.greeted && s.failed == {}
  {
    var s1 := FirstToken();
    var s2 := Connected(s1);
    var s3 := CaughtRedialing(s2, "b");
    var s4 := WritesToNewClient(s3, "b", 1);
  }

  /** A connect whose initial subscription fails. */
  lemma FailsToSubscribe(s: State) returns (t: State)
    requires Reachable(s) && s.connector.Lock? && s.mutex.Free? && s.client.Some? && s.tokens != {}
    ensures Reachable(t)
    ensures var told := WriteTo(s, s.client.value, s.tokens, false); t == told.(connector := Reading)
  {
    t := Take(s, Connect(true));
    t := Take(t, Connect(false));
    assert t.connector == Finish(false);
    t := Take(t, Connect(true));
  }

  /** A connect up to where it waits for the lock. */
  lemma Publishes(s: State) returns (t: State)
    requires Reachable(s) && s.connector.Dialing?
    ensures Reachable(t)
    ensures t == s.(connector := Lock, client := Some(s.dialed), subscribed := false, dialed := s.dialed + 1)
  {
    t := Take(s, Connect(true));
    t := Take(t, Connect(true));
    t := Take(t, Connect(true));
  }

  /** An adder that found `subscribed` false is about to send everything to the present client. */
  lemma AboutToGreet(s: State, token: Token) returns (t: State)
    requires Reachable(s) && s.mutex.Free? && s.adder.Outside? && token !in s.tokens && s.client.Some? && !s.subscribed
    ensures Reachable(t)
    ensures t == s.(tokens := s.tokens + {token}, mutex := Adder,
                    adder := SendSet(token, s.client.value, s.tokens + {token}))
  {
    t := Take(s, AddToken(token));
    t := Take(t, Add(true));
    t := Take(t, Add(true));
    t := Take(t, Add(true));
    t := Take(t, Add(true));
  }

  /** It succeeds, marks the worker subscribed and leaves. */
  lemma GreetsAndMarks(s: State) returns (t: State)
    requires Reachable(s) && s.adder.SendSet?
    ensures Reachable(t)
    ensures var told := Greet(s, s.adder.conn, s.adder.tokens, true);
      t == told.(subscribed := true, mutex := Free, adder := Outside, addWrites := s.addWrites + 1)
  {
    t := Take(s, Add(true));
    t := Take(t, Add(true));
    t := Take(t, Add(true));
  }

  predicate StaleMark(s: State) {
    s.connector.Reading? && s.mutex.Free? && s.subscribed && s.client.Some? && s.client.value !in s.greeted
  }

  /**
   The mark can be stale: a run after which the worker counts as subscribed though its connection never took an
   initial subscription, because an adder marked it after greeting the connection before, and `connect`, whose own
   subscription then fails, leaves the mark as it is.
   */
  lemma MarkMayBeStale()
    ensures exists s :: Reachable(s) && StaleMark(s)
  {
    var s := FirstToken();
    s := Take(s, Connect(true));
    s := Publishes(s);
    s := FailsToSubscribe(s);
    s := Take(s, Disconnect);
    s := Take(s, Connect(true));
    assert s.connector.Dialing? && s.client == Some(0) && s.dialed == 1 && s.greeted == {};
    s := AboutToGreet(s, "b");
    s := Publishes(s);
    s := GreetsAndMarks(s);
    s := FailsToSubscribe(s);
  }

  // ---- When the initial subscription comes first ----

  /** No connection has been told anything before an initial subscription. */
  predicate OnlyGreetedTold(s: State) { s.announced.Keys <= s.greeted }

  predicate InitialFirst(es: seq<Step>) { forall n | 0 <= n <= |es| :: OnlyGreetedTold(Run(es[..n])) }

  /** The step sends connection `c` an initial subscription, successfully. */
  predicate Greets(s: State, e: Step, c: Conn) {
    || (e == Connect(true) && s.connector.SendAll? && s.client == Some(c) && s.tokens != {})
    || (e == Add(true) && s.adder.SendSet? && s.adder.conn == c)
  }

  predicate GreetsAt(es: seq<Step>, n: nat, c: Conn)
    requires n < |es|
  {
    Greets(Run(es[..n]), es[n], c)
  }

  lemma {:induction false} GreetedWhen(es: seq<Step>, c: Conn) returns (n: nat)
    requires c in Run(es).greeted
    ensures n < |es| && GreetsAt(es, n, c)
  {
    var last := |es| - 1;
    GreetingStep(Run(es[..last]), es[last], c);
    if c in Run(es[..last]).greeted {
      n := GreetedWhen(es[..last], c);
      assert es[..last][..n] == es[..n];
    } else {
      n := last;
    }
  }

  lemma {:induction false} StaysGreeted(es: seq<Step>, n: nat, c: Conn)
    requires n < |es| && GreetsAt(es, n, c)
    ensures c in Run(es).greeted
  {
    var last := |es| - 1;
    if n < last {
      assert es[..last][..n] == es[..n];
      StaysGreeted(es[..last], n, c);
    }
    GreetingStep(Run(es[..last]), es[last], c);
  }

  /** The greeted connections are those that were sent an initial subscription. */
  lemma {:induction false} GreetedIff(es: seq<Step>, c: Conn)
    ensures c in Run(es).greeted <==> exists n: nat :: n < |es| && GreetsAt(es, n, c)
  {
    if c in Run(es).greeted { var n := GreetedWhen(es, c); }
    if n: nat :| n < |es| && GreetsAt(es, n, c) { StaysGreeted(es, n, c); }
  }

  lemma GreetingStep(s: State, e: Step, c: Conn)
    ensures c in Next(s, e).greeted <==> c in s.greeted || Greets(s, e, c)
  {}

  /** `connect` is about to write `client` or `subscribed` without the lock, and an `AddToken` is running. */
  predicate Exposed(s: State) { (s.connector.SetClient? || s.connector.ClearSubscribed?) && !s.adder.Outside? }

  /** What holds besides `Inv` as long as no `AddToken` meets the unlocked writes. */
  predicate Calm(s: State) {
    && OnlyGreetedTold(s)
    && (s.adder.LoadForOne? || s.adder.MarkSubscribed? ==> s.client.Some? && s.client.value in s.greeted)
    && (s.adder.SendOne? ==> s.adder.conn in s.greeted)
    && (s.adder.SendSet? ==> s.client == Some(s.adder.conn))
    && (s.subscribed && !s.connector.ClearSubscribed? ==> s.client.Some? && s.client.value in s.greeted)
  }

  lemma ConnectorKeepsCalm(s: State, ok: bool)
    requires Inv(s) && Calm(s) && !Exposed(s)
    ensures !Exposed(ConnectorStep(s, ok)) ==> Calm(ConnectorStep(s, ok))
  {}

  lemma AdderKeepsCalm(s: State, ok: bool)
    requires Inv(s) && Calm(s) && !Exposed(s)
    ensures Calm(AdderStep(s, ok))
  {}

  lemma StepKeepsCalm(s: State, e: Step)
    requires Inv(s) && Calm(s) && !Exposed(s)
    ensures !Exposed(Next(s, e)) ==> Calm(Next(s, e))
  {
    match e {
      case Connect(ok) => ConnectorKeepsCalm(s, ok);
      case Add(ok) => AdderKeepsCalm(s, ok);
      case _ =>
    }
  }

  /** If no `AddToken` ever overlaps the unlocked writes of `connect`, initial subscriptions come first. */
  lemma {:induction false} CalmRunsGreetFirst(es: seq<Step>)
    requires forall n | 0 <= n <= |es| :: !Exposed(Run(es[..n]))
    ensures Calm(Run(es)) && InitialFirst(es)
  {
    assert es[..|es|] == es;
    if es != [] {
      var es' := es[..|es| - 1];
      forall n | 0 <= n <= |es'| ensures Run(es'[..n]) == Run(es[..n]) { assert es'[..n] == es[..n]; }
      CalmRunsGreetFirst(es');
      AllTokensAnnounced(es');
      assert es'[..|es'|] == es';
      StepKeepsCalm(Run(es'), es[|es| - 1]);
      forall n | 0 <= n <= |es| ensures OnlyGreetedTold(Run(es[..n])) {
        if n < |es| { assert OnlyGreetedTold(Run(es'[..n])); }
      }
    }
  }

  /** `connect` has published the client and not yet locked, or a write on it has failed; and nothing has greeted it. */
  predicate Unsubscribed(s: State) {
    && s.client.Some? && s.client.value !in s.greeted
    && (s.connector.ClearSubscribed? || s.connector.Lock? || s.client.value in s.failed)
  }

  /**
   Past the test of `subscribed`, step `m` of the adder reads a client that is not subscribed yet, and its next
   step, `n`, writes the single token successfully.
   */
  predicate Overtakes(es: seq<Step>, m: nat, n: nat) {
    && m < n < |es| && es[m].Add? && es[n] == Add(true) && (forall k | m < k < n :: !es[k].Add?)
    && Run(es[..m]).adder.LoadForOne? && Unsubscribed(Run(es[..m]))
  }

  /** While the adder holds a connection, other steps greet nobody. */
  lemma WaitingStep(es: seq<Step>)
    requires es != [] && !es[|es| - 1].Add?
    requires Run(es[..|es| - 1]).adder.SendOne? || Run(es).adder.SendOne?
    ensures var s, t := Run(es[..|es| - 1]), Run(es); s.adder == t.adder && s.greeted == t.greeted
  {
    AllTokensAnnounced(es[..|es| - 1]);
  }

  lemma ReadingStep(s: State, e: Step)
    requires e.Add? && Next(s, e).adder.SendOne?
    ensures Holds(s, Next(s, e))
  {}

  /** `t` holds the connection that `s` is about to read, and nothing was greeted in between. */
  predicate Holds(s: State, t: State) {
    s.adder.LoadForOne? && s.client.Some? && t.adder == SendOne(s.adder.token, s.client.value) && s.greeted == t.greeted
  }

  /** While the adder waits to write a single token, no connection is greeted; it read `client` at step `m`. */
  lemma {:induction false} ClientRead(es: seq<Step>) returns (m: nat)
    requires Run(es).adder.SendOne?
    ensures m < |es| && es[m].Add? && forall k | m < k < |es| :: !es[k].Add?
    ensures Holds(Run(es[..m]), Run(es))
  {
    var last := |es| - 1;
    if es[last].Add? {
      ReadingStep(Run(es[..last]), es[last]);
      m := last;
    } else {
      WaitingStep(es);
      m := ClientRead(es[..last]);
      assert es[..last][..m] == es[..m];
    }
  }

  /** The converse: from a read to the write that follows it, the adder holds its connection and nothing is greeted. */
  lemma {:induction false} HoldsConnection(es: seq<Step>, m: nat)
    requires m < |es| && es[m].Add? && forall k | m < k < |es| :: !es[k].Add?
    requires Run(es[..m]).adder.LoadForOne? && Run(es[..m]).client.Some?
    ensures Holds(Run(es[..m]), Run(es))
  {
    var last := |es| - 1;
    if m < last {
      assert es[..last][..m] == es[..m];
      HoldsConnection(es[..last], m);
      WaitingStep(es);
    }
  }

  /** A step tells an ungreeted connection something exactly if it is such a write. */
  lemma TellsUngreeted(s: State, e: Step)
    requires OnlyGreetedTold(s)
    ensures OnlyGreetedTold(Next(s, e)) <==> !(e == Add(true) && s.adder.SendOne? && s.adder.conn !in s.greeted)
  {}

  lemma ReadUnsubscribed(es: seq<Step>)
    requires var s := Run(es); s.adder.LoadForOne? && s.client.Some? && s.client.value !in s.greeted
    ensures Unsubscribed(Run(es))
  {
    AllTokensAnnounced(es);
  }

  lemma OvertakingTellsUngreeted(es: seq<Step>, m: nat, n: nat)
    requires Overtakes(es, m, n)
    ensures !OnlyGreetedTold(Run(es[..n + 1]))
  {
    assert es[..n + 1][..n] == es[..n] && es[..n][..m] == es[..m];
    HoldsConnection(es[..n], m);
    if OnlyGreetedTold(Run(es[..n])) { TellsUngreeted(Run(es[..n]), Add(true)); } else { StaysTold(Run(es[..n])); }
  }

  /** A single-token write greets nobody. */
  lemma StaysTold(s: State)
    requires s.adder.SendOne? && !OnlyGreetedTold(s)
    ensures !OnlyGreetedTold(Next(s, Add(true)))
  {
    var c :| c in s.announced && c !in s.greeted;
    assert c in Next(s, Add(true)).announced;
  }

  lemma FirstOvertaking(es: seq<Step>, n: nat)
    requires n < |es| && OnlyGreetedTold(Run(es[..n])) && !OnlyGreetedTold(Run(es[..n + 1]))
    ensures exists m :: Overtakes(es, m, n)
  {
    assert es[..n + 1][..n] == es[..n];
    TellsUngreeted(Run(es[..n]), es[n]);
    var m := ClientRead(es[..n]);
    assert es[..n][..m] == es[..m];
    ReadUnsubscribed(es[..m]);
    assert Overtakes(es, m, n);
  }

  /**
   Exactly when some connection is told a token before its initial subscription: the adder reads `client`, past
   its test of `subscribed`, when `connect` has published but not subscribed it (or its subscription failed), and
   then writes.
   */
  lemma {:induction false} InitialFirstIff(es: seq<Step>)
    ensures InitialFirst(es) <==> !(exists m, n :: Overtakes(es, m, n))
  {
    if m, n :| Overtakes(es, m, n) { OvertakingTellsUngreeted(es, m, n); }
    if !InitialFirst(es) {
      var k :| 0 <= k <= |es| && !OnlyGreetedTold(Run(es[..k]));
      var n := LastGood(es, k);
      FirstOvertaking(es, n);
    }
  }

  lemma LastGood(es: seq<Step>, k: nat) returns (n: nat)
    requires k <= |es| && !OnlyGreetedTold(Run(es[..k]))
    ensures n < k && OnlyGreetedTold(Run(es[..n])) && !OnlyGreetedTold(Run(es[..n + 1]))
  {
    n := 0;
    while OnlyGreetedTold(Run(es[..n + 1]))
      invariant n < k && OnlyGreetedTold(Run(es[..n]))
      decreases k - n
    {
      n := n + 1;
    }
  }
}
