/** The path of an APDU through all four parties: the modem asks the daemon, the daemon sends a
    request, the provider gives it to the card, the card's answer comes back as a response, and the
    daemon forwards it to the modem. Requests are numbered here to tell them apart; the programs
    only have the one-byte APDU id. */
module ApduCorrelation {
  import opened Wrappers
  import opened Messages
  import Cards = CardControls
  import Daemons = RemoteSimDaemons
  import Providers = SapCardProviders
  import SimConnections

  /** Where a request is: in a message to the provider, at the card with the id its callback remembers,
      in a message back to the daemon, or no longer anywhere. */
  datatype Stage = Requested(msg: seq<Byte>) | AtCard(callback: Byte) | Responded(msg: seq<Byte>) | Over

  datatype Request = Request(id: Byte, apdu: seq<Byte>, stage: Stage, answer: Option<seq<int>>)

  /** A command given to the modem, the number of the request that led to it, and how many requests the
      modem had made by then. */
  datatype Delivered = Delivered(n: nat, command: ModemCommand, issued: nat)

  datatype System = System(
    requests: seq<Request>,    // every request so far, by number
    card: Cards.Card,
    latest: map<Byte, nat>,    // the last request accepted for each id
    delivered: seq<Delivered>,
    daemon: Daemons.Daemon)
  {
    predicate Has(n: nat) {
      n < |requests|
    }

    function At(n: nat, r: Request): System
      requires Has(n)
    {
      this.(requests := requests[n := r])
    }
  }

  datatype Event =
    | Issue(id: Byte, apdu: seq<Byte>)         // onApduTransfer, client connected
    | ProviderReads(n: nat, sent: bool)        // handleDaemonMsg; sent: transmitApdu returned SUCCESS
    | CardAnswers(n: nat, data: seq<int>)      // onResponse, daemon connected
    | DaemonReads(n: nat, now: int)            // one turn of the daemon's loop
    | DaemonChanges(at: Daemons.Event)         // anything else that happens at the daemon
    | Lost(n: nat)                             // a message lost with its connection
    | CardChanges(e: Cards.CardEvent)          // anything else that happens at the card

  /** The modem does not reuse an id while a request with that id is on its way, and requests
      and responses fit the receive buffer. Messages may arrive in any order. */
  predicate Enabled(s: System, e: Event) {
    match e
    case Issue(id, apdu) =>
      && s.daemon.end.connected && |RequestBytes(id, apdu)| <= BUF_LEN
      && forall r :: r in s.requests && !r.stage.Over? ==> r.id != id
    case ProviderReads(n, _) => s.Has(n) && s.requests[n].stage.Requested? && s.requests[n].stage.msg != []
    case CardAnswers(n, data) => s.Has(n) && s.requests[n].stage.AtCard? && |ResponseBytes(data, 0)| <= BUF_LEN
    case DaemonReads(n, _) => s.Has(n) && s.requests[n].stage.Responded? && s.daemon.end.connected
    case DaemonChanges(e) =>
      e.Loop? && e.poll.readable && e.poll.data != [] ==> e.poll.data[0] != APDU_TRANSFER_MSG
    case Lost(n) => s.Has(n) && !s.requests[n].stage.AtCard?
    case CardChanges(c) => !c.ApduMessage? && !c.ApduAnswered?
  }

  function Step(s: System, e: Event): System
    requires Enabled(s, e)
  {
    match e
    case Issue(id, apdu) =>
      s.(requests := s.requests + [Request(id, apdu, Requested(RequestBytes(id, apdu)), None)])
    case ProviderReads(n, sent) =>
      var r := s.requests[n];
      var msg := r.stage.msg;
      var s' := s.(card := Providers.CardAfterMessage(s.card, msg, Providers.Outcomes(false, false, false)));
      if !s.card.connected || msg[0] != APDU_TRANSFER_MSG || DecodeRequest(msg).None? then s'.At(n, r.(stage := Over))
      else
        var stage := if sent then AtCard(s'.card.callbacks[msg[1]]) else Over;
        s'.(latest := s.latest[msg[1] := n]).At(n, r.(stage := stage))
    case CardAnswers(n, data) =>
      var r := s.requests[n];
      var id := r.stage.callback;
      s.(card := Cards.Step(s.card, Cards.ApduAnswered(id)))
       .At(n, r.(stage := Responded(ResponseBytes(data, id)), answer := Some(data)))
    case DaemonReads(n, now) =>
      var read := ReadingResponse(s, n, now);
      DeliveredBy(s, n, Apdus(Daemons.Added(s.daemon, read)), Daemons.Step(s.daemon, read))
    case DaemonChanges(e) => s.(daemon := Daemons.Step(s.daemon, e))
    case Lost(n) => s.At(n, s.requests[n].(stage := Over))
    case CardChanges(c) => s.(card := Cards.Step(s.card, c))
  }

  function Tagged(n: nat, commands: seq<ModemCommand>, issued: nat): seq<Delivered> {
    seq(|commands|, i requires 0 <= i < |commands| => Delivered(n, commands[i], issued))
  }

  function ReadingResponse(s: System, n: nat, now: int): Daemons.Event
    requires s.Has(n) && s.requests[n].stage.Responded?
  {
    Daemons.Loop(SimConnections.Delivery(s.requests[n].stage.msg), now)
  }

  function DeliveredBy(s: System, n: nat, commands: seq<ModemCommand>, daemon: Daemons.Daemon): System
    requires s.Has(n)
  {
    s.(daemon := daemon, delivered := s.delivered + Tagged(n, commands, |s.requests|))
     .At(n, s.requests[n].(stage := Over))
  }

  predicate IsApdu(c: ModemCommand) {
    c.SendApdu?
  }

  /** The responses among the commands given to the modem. */
  function Apdus(sent: seq<ModemCommand>): seq<ModemCommand> {
    Daemons.Only(sent, IsApdu)
  }

  function Commands(delivered: seq<Delivered>): seq<ModemCommand> {
    seq(|delivered|, i requires 0 <= i < |delivered| => delivered[i].command)
  }

  /** The state initDaemon leaves, with whatever client connection. */
  function Start(end: SimConnections.DaemonEnd): System {
    System([], Cards.INITIAL, map[], [], Daemons.Daemon(end, Daemons.Modem(true, [ConnectionAvailable])))
  }

  predicate Run(s: System, es: seq<Event>)
    decreases |es|
  {
    es == [] || (Enabled(s, es[0]) && Run(Step(s, es[0]), es[1..]))
  }

  function After(s: System, es: seq<Event>): System
    requires Run(s, es)
    decreases |es|
  {
    if es == [] then s else After(Step(s, es[0]), es[1..])
  }

  // ------------------------------------------------------------------ invariants

  /** A message is what its request, or the card's answer to it, was encoded as. */
  predicate Labelled(r: Request) {
    match r.stage
    case Requested(msg) => r.answer.None? && msg == RequestBytes(r.id, r.apdu)
    case AtCard(callback) => r.answer.None? && callback == r.id
    case Responded(msg) =>
      r.answer.Some? && msg == ResponseBytes(r.answer.value, r.id) && |msg| <= BUF_LEN
    case Over => true
  }

  predicate RequestsSound(s: System) {
    && (forall n :: 0 <= n < |s.requests| ==> Labelled(s.requests[n]))
    && (forall m, n :: 0 <= m < n < |s.requests| && !s.requests[m].stage.Over? ==> s.requests[m].id != s.requests[n].id)
  }

  /** The callback map holds exactly the ids whose last accepted request is unanswered. */
  ghost predicate CallbacksExact(s: System) {
    && (forall id :: id in s.latest ==> s.Has(s.latest[id]) && s.requests[s.latest[id]].id == id)
    && (forall id :: id in s.card.callbacks <==> id in s.latest && s.requests[s.latest[id]].answer.None?)
  }

  /** A request at the card is the last one accepted for its id. */
  predicate AtCardLatest(s: System) {
    forall n :: 0 <= n < |s.requests| && s.requests[n].stage.AtCard? ==>
      s.requests[n].id in s.latest && s.latest[s.requests[n].id] == n
  }

  /** The modem gets each answer under the id of its request, unaltered, never twice, and while that
      request is the last one it has made with the id. */
  predicate DeliveriesCorrect(s: System) {
    && (forall d :: d in s.delivered ==>
          && s.Has(d.n) && s.requests[d.n].stage.Over? && s.requests[d.n].answer.Some?
          && d.command == SendApdu(s.requests[d.n].id, ToBytes(s.requests[d.n].answer.value))
          && d.n < d.issued <= |s.requests|
          && forall m :: d.n < m < d.issued ==> s.requests[m].id != s.requests[d.n].id)
    && (forall i, j :: 0 <= i < j < |s.delivered| ==> s.delivered[i].n != s.delivered[j].n)
  }

  /** The deliveries are all the responses the modem has been given. */
  predicate DeliveriesComplete(s: System) {
    Apdus(s.daemon.modem.sent) == Commands(s.delivered)
  }

  ghost predicate Invariant(s: System) {
    RequestsSound(s) && CallbacksExact(s) && AtCardLatest(s) && DeliveriesCorrect(s) && DeliveriesComplete(s)
  }

  lemma ProviderReadsKeeps(s: System, n: nat, sent: bool)
    requires Invariant(s) && Enabled(s, ProviderReads(n, sent))
    ensures Invariant(Step(s, ProviderReads(n, sent)))
  {
    var r := s.requests[n];
    assert Labelled(r) && r.stage.msg[1] == r.id && r.stage.msg[0] == APDU_TRANSFER_MSG;
    var card := Cards.Step(s.card, Cards.ApduMessage(r.stage.msg));
    Cards.CallbacksChange(s.card, Cards.ApduMessage(r.stage.msg));
    if !s.card.connected || DecodeRequest(r.stage.msg).None? {
      RejectKeeps(s, n, card);
    } else {
      AcceptKeeps(s, n, card, if sent then AtCard(card.callbacks[r.id]) else Over);
    }
  }

  lemma RejectKeeps(s: System, n: nat, card: Cards.Card)
    requires Invariant(s) && s.Has(n) && s.requests[n].stage.Requested?
    requires card.callbacks == s.card.callbacks
    ensures Invariant(s.(card := card).At(n, s.requests[n].(stage := Over)))
  {}

  function Accepted(s: System, n: nat, card: Cards.Card, stage: Stage): System
    requires s.Has(n)
  {
    s.(card := card, latest := s.latest[s.requests[n].id := n]).At(n, s.requests[n].(stage := stage))
  }

  /** An accepted request is at the card, or over if the card manager refused it. */
  lemma AcceptKeeps(s: System, n: nat, card: Cards.Card, stage: Stage)
    requires Invariant(s) && s.Has(n) && s.requests[n].stage.Requested?
    requires stage == Over || stage == AtCard(s.requests[n].id)
    requires card.callbacks == s.card.callbacks[s.requests[n].id := s.requests[n].id]
    ensures Invariant(Accepted(s, n, card, stage))
  {
    AcceptKeepsRequests(s, n, card, stage);
    AcceptKeepsCallbacks(s, n, card, stage);
  }

  lemma AcceptKeepsRequests(s: System, n: nat, card: Cards.Card, stage: Stage)
    requires RequestsSound(s) && DeliveriesCorrect(s) && s.Has(n) && s.requests[n].stage.Requested?
    requires stage == Over || stage == AtCard(s.requests[n].id)
    ensures RequestsSound(Accepted(s, n, card, stage)) && DeliveriesCorrect(Accepted(s, n, card, stage))
  {
    assert Labelled(s.requests[n]);
  }

  lemma AcceptKeepsCallbacks(s: System, n: nat, card: Cards.Card, stage: Stage)
    requires RequestsSound(s) && CallbacksExact(s) && AtCardLatest(s) && s.Has(n) && s.requests[n].stage.Requested?
    requires stage == Over || stage == AtCard(s.requests[n].id)
    requires card.callbacks == s.card.callbacks[s.requests[n].id := s.requests[n].id]
    ensures CallbacksExact(Accepted(s, n, card, stage)) && AtCardLatest(Accepted(s, n, card, stage))
  {
    assert Labelled(s.requests[n]);
  }

  lemma CardAnswersKeeps(s: System, n: nat, data: seq<int>)
    requires Invariant(s) && Enabled(s, CardAnswers(n, data))
    ensures Invariant(Step(s, CardAnswers(n, data)))
  {
    CardAnswersKeepsRequests(s, n, data);
    CardAnswersKeepsCallbacks(s, n, data);
  }

  lemma CardAnswersKeepsRequests(s: System, n: nat, data: seq<int>)
    requires RequestsSound(s) && DeliveriesCorrect(s) && Enabled(s, CardAnswers(n, data))
    ensures RequestsSound(Step(s, CardAnswers(n, data))) && DeliveriesCorrect(Step(s, CardAnswers(n, data)))
  {
    assert Labelled(s.requests[n]);
  }

  lemma CardAnswersKeepsCallbacks(s: System, n: nat, data: seq<int>)
    requires RequestsSound(s) && CallbacksExact(s) && AtCardLatest(s) && Enabled(s, CardAnswers(n, data))
    ensures CallbacksExact(Step(s, CardAnswers(n, data))) && AtCardLatest(Step(s, CardAnswers(n, data)))
  {
    assert Labelled(s.requests[n]);
    Cards.CallbacksChange(s.card, Cards.ApduAnswered(s.requests[n].id));
  }

  lemma DaemonReadsKeeps(s: System, n: nat, now: int)
    requires Invariant(s) && Enabled(s, DaemonReads(n, now))
    ensures Invariant(Step(s, DaemonReads(n, now)))
  {
    var r := s.requests[n];
    assert Labelled(r);
    ResponseWholeOrNothing(r.answer.value, r.id);
    var read := ReadingResponse(s, n, now);
    Daemons.EventAddsOnly(s.daemon, read, IsApdu);
    if Forwarded(r.stage.msg) != [] {
      Daemons.OnlyOne(Forwarded(r.stage.msg)[0], IsApdu);
    }
    var commands := Apdus(Daemons.Added(s.daemon, read));
    assert commands == [] || commands == [SendApdu(r.id, ToBytes(r.answer.value))];
    DeliveryKeeps(s, n, commands, Daemons.Step(s.daemon, read));
  }

  /** A request is over once its response is read, whether or not a command comes of it. */
  lemma DeliveryKeeps(s: System, n: nat, commands: seq<ModemCommand>, daemon: Daemons.Daemon)
    requires Invariant(s) && s.Has(n) && s.requests[n].stage.Responded? && s.requests[n].answer.Some?
    requires commands == [] || commands == [SendApdu(s.requests[n].id, ToBytes(s.requests[n].answer.value))]
    requires Apdus(daemon.modem.sent) == Apdus(s.daemon.modem.sent) + commands
    ensures Invariant(DeliveredBy(s, n, commands, daemon))
  {
    DeliveryKeepsDeliveries(s, n, commands, daemon);
    DeliveryKeepsRequests(s, n, commands, daemon);
    var tagged := Tagged(n, commands, |s.requests|);
    assert Commands(s.delivered + tagged) == Commands(s.delivered) + commands;
  }

  lemma DeliveryKeepsDeliveries(s: System, n: nat, commands: seq<ModemCommand>, daemon: Daemons.Daemon)
    requires RequestsSound(s) && DeliveriesCorrect(s)
    requires s.Has(n) && s.requests[n].stage.Responded? && s.requests[n].answer.Some?
    requires commands == [] || commands == [SendApdu(s.requests[n].id, ToBytes(s.requests[n].answer.value))]
    ensures DeliveriesCorrect(DeliveredBy(s, n, commands, daemon))
  {
    var tagged := Tagged(n, commands, |s.requests|);
    assert tagged == [] || tagged == [Delivered(n, commands[0], |s.requests|)];
  }

  lemma DeliveryKeepsRequests(s: System, n: nat, commands: seq<ModemCommand>, daemon: Daemons.Daemon)
    requires RequestsSound(s) && CallbacksExact(s) && AtCardLatest(s) && s.Has(n) && s.requests[n].stage.Responded?
    ensures RequestsSound(DeliveredBy(s, n, commands, daemon))
    ensures CallbacksExact(DeliveredBy(s, n, commands, daemon)) && AtCardLatest(DeliveredBy(s, n, commands, daemon))
  {}

  lemma OtherMessagesGiveNoApdu(d: Daemons.Daemon, e: Daemons.Event)
    requires e.Loop? && e.poll.readable && e.poll.data != [] ==> e.poll.data[0] != APDU_TRANSFER_MSG
    ensures Apdus(Daemons.ReadBy(d, e)) == []
  {
    var commands := Daemons.ReadBy(d, e);
    if commands != [] {
      assert commands == [commands[0]] && !commands[0].SendApdu?;
      Daemons.OnlyOne(commands[0], IsApdu);
    }
  }

  lemma DaemonChangesKeep(s: System, e: Daemons.Event)
    requires Invariant(s) && Enabled(s, DaemonChanges(e))
    ensures Invariant(Step(s, DaemonChanges(e)))
  {
    Daemons.EventAddsOnly(s.daemon, e, IsApdu);
    OtherMessagesGiveNoApdu(s.daemon, e);
  }

  lemma CardChangesKeep(s: System, c: Cards.CardEvent)
    requires Invariant(s) && Enabled(s, CardChanges(c))
    ensures Invariant(Step(s, CardChanges(c)))
  {
    Cards.CallbacksChange(s.card, c);
  }

  lemma IssueKeeps(s: System, id: Byte, apdu: seq<Byte>)
    requires Invariant(s) && Enabled(s, Issue(id, apdu))
    ensures Invariant(Step(s, Issue(id, apdu)))
  {}

  lemma LostKeeps(s: System, n: nat)
    requires Invariant(s) && Enabled(s, Lost(n))
    ensures Invariant(Step(s, Lost(n)))
  {}

  lemma InvariantStep(s: System, e: Event)
    requires Invariant(s) && Enabled(s, e)
    ensures Invariant(Step(s, e))
  {
    match e
    case Issue(id, apdu) => IssueKeeps(s, id, apdu);
    case ProviderReads(n, sent) => ProviderReadsKeeps(s, n, sent);
    case CardAnswers(n, data) => CardAnswersKeeps(s, n, data);
    case DaemonReads(n, now) => DaemonReadsKeeps(s, n, now);
    case DaemonChanges(change) => DaemonChangesKeep(s, change);
    case Lost(n) => LostKeeps(s, n);
    case CardChanges(c) => CardChangesKeep(s, c);
  }

  lemma {:induction false} InvariantRun(s: System, es: seq<Event>)
    requires Invariant(s) && Run(s, es)
    ensures Invariant(After(s, es))
    decreases |es|
  {
    if es != [] {
      InvariantStep(s, es[0]);
      InvariantRun(Step(s, es[0]), es[1..]);
    }
  }

  lemma StartInvariant(end: SimConnections.DaemonEnd)
    ensures Invariant(Start(end))
  {
    Daemons.OnlyOne(ConnectionAvailable, IsApdu);
  }

  /** In every run in which ids are distinct while in use, with messages lost and the card pulled at
      any point, and whatever else the daemon's loop does in between: what the modem gets under an id is
      the card's answer to the last request it has made with that id, whole and at most once; these are
      all the responses it gets; and the callback map holds exactly the ids whose last accepted request
      is unanswered. */
  lemma ResponsesCorrelate(end: SimConnections.DaemonEnd, es: seq<Event>)
    requires Run(Start(end), es)
    ensures var s := After(Start(end), es); DeliveriesCorrect(s) && DeliveriesComplete(s) && CallbacksExact(s)
  {
    StartInvariant(end);
    InvariantRun(Start(end), es);
  }

  /** In every run, an answer of at most 255 bytes is given to the modem, under the id of its request, when
      the daemon reads it. */
  lemma AnswerReachesModem(end: SimConnections.DaemonEnd, es: seq<Event>, n: nat, now: int)
    requires Run(Start(end), es) && Enabled(After(Start(end), es), DaemonReads(n, now))
    ensures var s := After(Start(end), es); var r := s.requests[n];
      && r.answer.Some?
      && (|r.answer.value| <= 255 ==>
            s.daemon.modem.sent + [SendApdu(r.id, ToBytes(r.answer.value))]
            <= Step(s, DaemonReads(n, now)).daemon.modem.sent)
  {
    StartInvariant(end);
    InvariantRun(Start(end), es);
    var s := After(Start(end), es);
    assert Labelled(s.requests[n]);
    if |s.requests[n].answer.value| <= 255 {
      Daemons.ResponseReachesModem(s.daemon, s.requests[n].answer.value, s.requests[n].id, now);
    }
  }

  lemma ReadingTransmits(s: System, n: nat, a: Apdu, sent: bool)
    requires RequestsSound(s) && Enabled(s, ProviderReads(n, sent))
    requires s.card.connected && a.WellFormed() && s.requests[n].apdu == a.Layout()
    ensures Step(s, ProviderReads(n, sent)).card.trace
         == s.card.trace + [Cards.Transmitted(s.requests[n].id, Transmit(a.h, |a.Data()|, a.Data(), a.Le()))]
  {
    assert Labelled(s.requests[n]);
    RequestRoundTrip(s.requests[n].id, a);
  }

  /** In every run, a well-formed APDU the modem issued is what the card is asked to execute, field by
      field and under its own id, when the provider reads the request with the card connected. */
  lemma IssuedApduReachesCard(end: SimConnections.DaemonEnd, es: seq<Event>, n: nat, a: Apdu, sent: bool)
    requires Run(Start(end), es) && Enabled(After(Start(end), es), ProviderReads(n, sent))
    requires var s := After(Start(end), es); s.card.connected && a.WellFormed() && s.requests[n].apdu == a.Layout()
    ensures var s := After(Start(end), es);
      Step(s, ProviderReads(n, sent)).card.trace
      == s.card.trace + [Cards.Transmitted(s.requests[n].id, Transmit(a.h, |a.Data()|, a.Data(), a.Le()))]
  {
    StartInvariant(end);
    InvariantRun(Start(end), es);
    ReadingTransmits(After(Start(end), es), n, a, sent);
  }
}
