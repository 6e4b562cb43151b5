/**
 One upstream connection worker: a connector goroutine that (re)connects and an adder goroutine that
 registers tokens.  `mu` protects the token set, but `connect` writes `client` and `subscribed` before it
 takes the lock, so its writes may fall in the middle of an `AddToken`.  Every read, write, lock and unlock
 is a step of its own.
 */
module StreamWorkers {
  import opened Options

  type Token = string
  type Conn = nat

  datatype Owner = Free | Connector | Adder

  /** Where the connector goroutine (`Start` and `connect`) stands. */
  datatype ConnectorAt =
    | Idle                       // between connections, no token seen yet
    | Dialing                    // hasTokens was true
    | SetClient(conn: Conn)      // dialed; about to write w.client
    | ClearSubscribed            // about to write w.subscribed = false
    | Lock                       // about to lock
    | SendAll                    // locked; about to send the initial subscription
    | Finish(sent: bool)         // about to set subscribed (if sent) and unlock
    | Reading

  /** Where the adder goroutine (`AddToken`) stands; past `Locked` it holds the mutex. */
  datatype AdderAt =
    | Outside
    | Locked(token: Token)
    | Added(token: Token)        // about to test w.client != nil
    | HasClient(token: Token)    // about to test w.subscribed
    | LoadForAll(token: Token)   // in sendInitialSubscriptionLocked, about to read w.client and the tokens
    | LoadForOne(token: Token)   // about to read w.client for a single-token subscribe
    | SendSet(token: Token, conn: Conn, tokens: set<Token>)
    | SendOne(token: Token, conn: Conn)
    | MarkSubscribed
    | Unlock

  datatype State = State(
    tokens: set<Token>, client: Option<Conn>, subscribed: bool, mutex: Owner,
    connector: ConnectorAt, adder: AdderAt,
    dialed: nat,                        // connections made so far; the next one gets this number
    announced: map<Conn, set<Token>>,   // what each connection was successfully told
    greeted: set<Conn>,                 // connections that took an initial subscription
    failed: set<Conn>,                  // connections on which a write failed
    addWrites: nat)                     // writes attempted by the adder

  const INIT := State({}, None, false, Free, Idle, Outside, 0, map[], {}, {}, 0)

  /** One scheduling choice; `ok` is the outcome of a dial or a write, if the step makes one. */
  datatype Step =
    | Connect(ok: bool)          // the connector continues
    | Disconnect                 // its read loop ends
    | AddToken(token: Token)     // the adder is called, and locks
    | Add(ok: bool)              // the adder continues

  function Told(s: State, c: Conn): set<Token> { if c in s.announced then s.announced[c] else {} }

  function WriteTo(s: State, c: Conn, tokens: set<Token>, ok: bool): State {
    if ok then s.(announced := s.announced[c := Told(s, c) + tokens]) else s.(failed := s.failed + {c})
  }

  /** An initial subscription, which carries all tokens. */
  function Greet(s: State, c: Conn, tokens: set<Token>, ok: bool): State {
    WriteTo(s, c, tokens, ok).(greeted := if ok then s.greeted + {c} else s.greeted)
  }

  function ConnectorStep(s: State, ok: bool): State {
    match s.connector
    case Idle => if s.mutex.Free? && s.tokens != {} then s.(connector := Dialing) else s
    case Dialing => if ok then s.(connector := SetClient(s.dialed), dialed := s.dialed + 1) else s.(connector := Idle)
    case SetClient(conn) => s.(client := Some(conn), connector := ClearSubscribed)
    case ClearSubscribed => s.(subscribed := false, connector := Lock)
    case Lock => if s.mutex.Free? then s.(mutex := Connector, connector := SendAll) else s
    case SendAll =>
      if s.client.None? || s.tokens == {} then s.(connector := Finish(false))
      else Greet(s, s.client.value, s.tokens, ok).(connector := Finish(ok))
    case Finish(sent) => s.(subscribed := s.subscribed || sent, mutex := Free, connector := Reading)
    case Reading => s
  }

  function AdderStep(s: State, ok: bool): State {
    match s.adder
    case Outside => s
    case Locked(t) => if t in s.tokens then s.(adder := Unlock) else s.(tokens := s.tokens + {t}, adder := Added(t))
    case Added(t) => if s.client.None? then s.(adder := Unlock) else s.(adder := HasClient(t))
    case HasClient(t) => if s.subscribed then s.(adder := LoadForOne(t)) else s.(adder := LoadForAll(t))
    case LoadForAll(t) =>
      if s.client.None? || s.tokens == {} then s.(adder := Unlock)
      else s.(adder := SendSet(t, s.client.value, s.tokens))
    case LoadForOne(t) => if s.client.None? then s.(adder := Unlock) else s.(adder := SendOne(t, s.client.value))
    case SendSet(_, conn, tokens) =>
      Greet(s, conn, tokens, ok).(adder := if ok then MarkSubscribed else Unlock, addWrites := s.addWrites + 1)
    case SendOne(t, conn) => WriteTo(s, conn, {t}, ok).(adder := Unlock, addWrites := s.addWrites + 1)
    case MarkSubscribed => s.(subscribed := true, adder := Unlock)
    case Unlock => s.(mutex := Free, adder := Outside)
  }

  function Next(s: State, e: Step): State {
    match e
    case Connect(ok) => ConnectorStep(s, ok)
    case Disconnect => if s.connector.Reading? then s.(connector := Idle) else s
    case AddToken(t) => if s.adder.Outside? && s.mutex.Free? then s.(mutex := Adder, adder := Locked(t)) else s
    case Add(ok) => AdderStep(s, ok)
  }

  function Run(es: seq<Step>): State {
    if es == [] then INIT else Next(Run(es[..|es| - 1]), es[|es| - 1])
  }

  /** `connect` has published a client it has not subscribed yet. */
  predicate Subscribing(c: ConnectorAt) {
    c.ClearSubscribed? || c.Lock? || c.SendAll? || c.Finish?
  }

  /** A token in the set that the adder has yet to announce. */
  function Pending(a: AdderAt): set<Token> {
    if a.Added? || a.HasClient? || a.LoadForAll? || a.LoadForOne? || a.SendSet? || a.SendOne? then {a.token} else {}
  }

  /** Connection `c` has been told every token in `tokens`, unless a write on it failed. */
  predicate Informed(s: State, c: Conn, tokens: set<Token>) {
    c in s.failed || tokens <= Told(s, c)
  }

  /** Nothing was written on `c` yet, so its failures and announcements are its own. */
  predicate NewConnection(s: State, c: Conn) { c !in s.failed && c !in s.announced }

  predicate Inv(s: State) {
    && (s.mutex.Connector? <==> s.connector.SendAll? || s.connector.Finish?)
    && (s.mutex.Adder? <==> !s.adder.Outside?)
    && (s.connector.Dialing? || s.connector.SetClient? || Subscribing(s.connector) ==> s.tokens != {})
    && (Subscribing(s.connector) ==> s.client.Some?)
    && (s.adder.HasClient? || s.adder.LoadForAll? || s.adder.LoadForOne? ==> s.client.Some?)
    && (s.client.Some? && !Subscribing(s.connector) ==> Informed(s, s.client.value, s.tokens - Pending(s.adder)))
    && (s.client.Some? && !Subscribing(s.connector) ==>
          s.client.value in s.failed || (s.subscribed && s.client.value in s.greeted))
    && (s.connector.Finish? ==> Informed(s, s.client.value, s.tokens))
    && (s.connector.Finish? ==> if s.connector.sent then s.client.value in s.greeted else s.client.value in s.failed)
    && Pending(s.adder) <= s.tokens
    && (s.adder.SendSet? ==> s.adder.tokens == s.tokens)
    && (s.adder.SendSet? || s.adder.SendOne? ==>
          Subscribing(s.connector) || s.client == Some(s.adder.conn))
    && (s.client.Some? ==> s.client.value < s.dialed)
    && (s.adder.SendSet? || s.adder.SendOne? ==> s.adder.conn < s.dialed)
    && (forall c | c in s.failed :: c < s.dialed) && (forall c | c in s.announced.Keys :: c < s.dialed)
    && (s.connector.SetClient? ==>
          s.connector.conn < s.dialed && NewConnection(s, s.connector.conn) && s.client != Some(s.connector.conn))
    && s.addWrites + |Pending(s.adder)| <= |s.tokens|
  }

  lemma StepKeepsInv(s: State, e: Step)
    requires Inv(s)
    ensures Inv(Next(s, e)) && s.tokens <= Next(s, e).tokens
  {
    match e {
      case Connect(ok) => ConnectorKeepsInv(s, ok);
      case Add(ok) => if s.adder.SendSet? || s.adder.SendOne? { WriteKeepsInv(s, ok); } else { AdderKeepsInv(s, ok); }
      case _ =>
    }
  }

  lemma ConnectorKeepsInv(s: State, ok: bool)
    requires Inv(s)
    ensures Inv(ConnectorStep(s, ok)) && s.tokens == ConnectorStep(s, ok).tokens
  {}

  lemma AdderKeepsInv(s: State, ok: bool)
    requires Inv(s) && !s.adder.SendSet? && !s.adder.SendOne?
    ensures Inv(AdderStep(s, ok)) && s.tokens <= AdderStep(s, ok).tokens
  {
    match s.adder
    case Locked(t) => AddingKeepsInv(s, t, ok);
    case _ =>
  }

  lemma AddingKeepsInv(s: State, t: Token, ok: bool)
    requires Inv(s) && s.adder == Locked(t)
    ensures Inv(AdderStep(s, ok)) && s.tokens <= AdderStep(s, ok).tokens
  {}

  lemma WriteKeepsInv(s: State, ok: bool)
    requires Inv(s) && (s.adder.SendSet? || s.adder.SendOne?)
    ensures Inv(AdderStep(s, ok)) && s.tokens == AdderStep(s, ok).tokens
  {}

  /**
   The announcement theorem, for every interleaving and every pattern of failing dials and writes: whenever
   the mutex is free and `connect` is not between publishing a client and subscribing it, either a write on the
   current connection has failed, or that connection has taken an initial subscription, is marked subscribed and
   has been told every token of the set.  No token makes the adder write more than once.
   */
  lemma {:induction false} AllTokensAnnounced(es: seq<Step>)
    ensures var s := Run(es);
      && Inv(s)
      && (s.mutex.Free? && !Subscribing(s.connector) && s.client.Some? ==>
            s.client.value in s.failed
            || (s.tokens <= Told(s, s.client.value) && s.subscribed && s.client.value in s.greeted))
      && s.addWrites <= |s.tokens|
  {
    if es != [] {
      AllTokensAnnounced(es[..|es| - 1]);
      StepKeepsInv(Run(es[..|es| - 1]), es[|es| - 1]);
    }
  }

  /** The token set only grows. */
  lemma {:induction false} TokensGrow(es: seq<Step>, n: nat)
    requires n <= |es|
    ensures Run(es[..n]).tokens <= Run(es).tokens
  {
    if n == |es| {
      assert es[..n] == es;
    } else {
      var es' := es[..|es| - 1];
      assert es'[..n] == es[..n];
      TokensGrow(es', n);
      StepKeepsTokens(Run(es'), es[|es| - 1]);
    }
  }

  lemma StepKeepsTokens(s: State, e: Step)
    ensures s.tokens <= Next(s, e).tokens
  {}

  // ---- The methods, run without interference ----

  function Seven(s: State, e: Step): State {
    Next(Next(Next(Next(Next(Next(Next(s, e), e), e), e), e), e), e)
  }

  /** `AddToken` from call to return. */
  function AddTokenAlone(s: State, t: Token, ok: bool): State { Seven(Next(s, AddToken(t)), Add(ok)) }

  /** What an uninterrupted `AddToken` does. */
  function AddTokenEffect(s: State, t: Token, ok: bool): State {
    if t in s.tokens then s
    else
      var s := s.(tokens := s.tokens + {t});
      if s.client.None? then s
      else
        var c := s.client.value;
        var told := if s.subscribed then WriteTo(s, c, {t}, ok) else Greet(s, c, s.tokens, ok);
        told.(addWrites := s.addWrites + 1, subscribed := s.subscribed || ok)
  }

  /** The adder's steps, taken together, are the method: adding a token twice sends and changes nothing. */
  lemma AddTokenIsAtomic(s: State, t: Token, ok: bool)
    requires s.mutex.Free? && s.adder.Outside?
    ensures AddTokenAlone(s, t, ok) == AddTokenEffect(s, t, ok)
    ensures AddTokenAlone(AddTokenEffect(s, t, ok), t, ok) == AddTokenEffect(s, t, ok)
  {
    AddTokenSteps(s, t, ok);
    AddTokenSteps(AddTokenEffect(s, t, ok), t, ok);
  }

  lemma AddTokenSteps(s: State, t: Token, ok: bool)
    requires s.mutex.Free? && s.adder.Outside?
    ensures AddTokenAlone(s, t, ok) == AddTokenEffect(s, t, ok)
  {
    var e := Add(ok);
    var s1 := Next(s, AddToken(t));
    var s2 := Next(s1, e);
    var s3 := Next(s2, e);
    var s4 := Next(s3, e);
    if t in s.tokens {
      assert s3 == s;
    } else if s.client.None? {
      assert s4 == s.(tokens := s.tokens + {t});
    } else if s.subscribed {
      assert s4.adder == LoadForOne(t);
      assert Next(s4, e).adder == SendOne(t, s.client.value);
    } else {
      assert s4.adder == LoadForAll(t);
      assert Next(s4, e).adder == SendSet(t, s.client.value, s.tokens + {t});
    }
  }

  /** `connect` from dial to return. */
  function ConnectAlone(s: State, dialOk: bool, writeOk: bool): State {
    var e := Connect(writeOk);
    var s := Next(s, Connect(dialOk));
    if dialOk then Next(Next(Next(Next(Next(s, e), e), e), e), e) else s
  }

  /** What an uninterrupted `connect` does. */
  function ConnectEffect(s: State, dialOk: bool, writeOk: bool): State {
    if !dialOk then s.(connector := Idle)
    else
      var s := s.(client := Some(s.dialed), dialed := s.dialed + 1);
      Greet(s, s.client.value, s.tokens, writeOk).(subscribed := writeOk, connector := Reading)
  }

  /** The connector's steps, taken together, are the method. */
  lemma ConnectIsAtomic(s: State, dialOk: bool, writeOk: bool)
    requires s.mutex.Free? && s.connector.Dialing? && s.tokens != {}
    ensures ConnectAlone(s, dialOk, writeOk) == ConnectEffect(s, dialOk, writeOk)
  {
    var e := Connect(writeOk);
    var s1 := Next(s, Connect(dialOk));
    if dialOk {
      var s3 := Next(Next(s1, e), e);
      assert s3 == s.(connector := Lock, dialed := s.dialed + 1, client := Some(s.dialed), subscribed := false);
      var s4 := Next(s3, e);
      assert s4 == s3.(mutex := Connector, connector := SendAll);
      var s5 := Next(s4, e);
      assert s5 == Greet(s4, s.dialed, s.tokens, writeOk).(connector := Finish(writeOk));
    }
  }

  class StreamWorker {
    var tokens: set<Token>
    var client: Option<Conn>
    var subscribed: bool
    ghost var connector: ConnectorAt
    var dialed: nat
    ghost var announced: map<Conn, set<Token>>
    ghost var greeted: set<Conn>
    ghost var failed: set<Conn>
    ghost var addWrites: nat

    constructor ()
      ensures View() == INIT
    {
      tokens, client, subscribed, connector := {}, None, false, Idle;
      dialed, announced, greeted, failed, addWrites := 0, map[], {}, {}, 0;
    }

    /** The worker while no method is running. */
    ghost function View(): State
      reads this
    {
      State(tokens, client, subscribed, Free, connector, Outside, dialed, announced, greeted, failed, addWrites)
    }

    method WriteMessage(conn: Conn, payload: set<Token>, ok: bool)
      modifies this`announced, this`failed
      ensures View() == WriteTo(old(View()), conn, payload, ok)
    {
      if ok {
        announced := announced[conn := (if conn in announced then announced[conn] else {}) + payload];
      } else {
        failed := failed + {conn};
      }
    }

    method SendInitialSubscriptionLocked(ok: bool) returns (sent: bool)
      modifies this`announced, this`greeted, this`failed
      ensures sent == (client.Some? && tokens != {} && ok)
      ensures View() == if client.None? || tokens == {} then old(View())
                        else Greet(old(View()), client.value, tokens, ok)
    {
      if client.None? || tokens == {} { return false; }
      WriteMessage(client.value, tokens, ok);
      if ok { greeted := greeted + {client.value}; }
      sent := ok;
    }

    /** Adding a token already in the set writes nothing and changes nothing. */
    method AddToken(token: Token, ok: bool)
      modifies this
      ensures View() == AddTokenEffect(old(View()), token, ok)
      ensures tokens == old(tokens) + {token}
    {
      if token !in tokens {
        tokens := tokens + {token};
        if client.Some? {
          if !subscribed {
            var sent := SendInitialSubscriptionLocked(ok);
            if sent { subscribed := true; }
          } else {
            WriteMessage(client.value, {token}, ok);
          }
          addWrites := addWrites + 1;
        }
      }
    }

    method Connect(dialOk: bool, writeOk: bool) returns (ok: bool)
      requires connector == Dialing && tokens != {}
      modifies this
      ensures ok == dialOk
      ensures View() == ConnectEffect(old(View()), dialOk, writeOk)
      ensures ok && writeOk ==> subscribed && client.Some? && tokens <= Told(View(), client.value)
    {
      if !dialOk {
        connector := Idle;
        return false;
      }
      client := Some(dialed);
      dialed := dialed + 1;
      subscribed := false;
      var sent := SendInitialSubscriptionLocked(writeOk);
      if sent { subscribed := true; }
      connector := Reading;
      ok := true;
    }
  }
}
