/** The provider's control of the SIM card: presence, the SAP connection, and the callbacks of the
    APDUs the card has been given. */
module CardControls {
  import opened Wrappers
  import opened Messages
  import opened SimConnections

  /** What the application is told, and what it asks of ISapCardManager. */
  datatype CardAction =
    | Removed
    | Opened
    | Transmitted(id: Byte, t: Transmit)
    | AtrRequested(kind: Byte)   // the message its callback will send
    | CloseRequested
    | PowerOnRequested
    | PowerOffRequested
    | ResetRequested

  datatype CardState = Absent | Present | Other

  /** The callback map is keyed by APDU id; a callback remembers the id it was made for. */
  datatype Card = Card(present: bool, connected: bool, callbacks: map<Byte, Byte>, trace: seq<CardAction>)
  {
    function Did(a: CardAction): Card {
      this.(trace := trace + [a])
    }
  }

  /** A callback or a daemon message, with the outcome of the calls it makes: whether an attempt to
      open the SAP connection succeeds, whether the SIM powers on. */
  datatype CardEvent =
    | FoundAtStart(state: CardState)
    | CardInfo(state: CardState, daemonConnected: bool, opens: bool)
    | ApduMessage(msg: seq<Byte>)
    | ApduAnswered(id: Byte)
    | ConnectMessage(opens: bool)
    | DisconnectMessage
    | PowerUpMessage(opens: bool, sent: bool, powers: bool)
    | PowerDownMessage
    | ResetMessage
    | ResetDone(success: bool)

  /** openSapConn: connected only if the card is present and the request succeeds. */
  function Open(c: Card, opens: bool): Card {
    if c.present && opens then c.(connected := true).Did(Opened) else c
  }

  function EnsureOpen(c: Card, opens: bool): Card {
    if c.connected then c else Open(c, opens)
  }

  function RequestAtrIf(c: Card, kind: Byte, isOpen: bool): Card {
    if isOpen then c.Did(AtrRequested(kind)) else c
  }

  function Step(c: Card, e: CardEvent): Card {
    match e
    case FoundAtStart(Absent) => c.(present := false, connected := false).Did(Removed)
    case FoundAtStart(Present) => c.(present := true)
    case FoundAtStart(Other) => c
    case CardInfo(Absent, _, _) => c.(present := false, connected := false).Did(Removed)
    case CardInfo(Present, daemonConnected, opens) =>
      var p := c.(present := true);
      if p.connected || !daemonConnected then p.Did(AtrRequested(CARD_INSERTED_MSG))
      else RequestAtrIf(Open(p, opens), CARD_INSERTED_MSG, opens)
    case CardInfo(Other, _, _) => c
    case ApduMessage(msg) =>
      if !c.connected || DecodeRequest(msg).None? then c
      else
        var callbacks := c.callbacks[msg[1] := msg[1]];
        c.(callbacks := callbacks).Did(Transmitted(callbacks[msg[1]], DecodeRequest(msg).value))
    case ApduAnswered(id) => c.(callbacks := c.callbacks - {id})
    case ConnectMessage(opens) =>
      RequestAtrIf(EnsureOpen(c, opens), CARD_RESET_MSG, EnsureOpen(c, opens).connected)
    case DisconnectMessage => if c.connected then c.Did(CloseRequested) else c
    case PowerUpMessage(opens, sent, powers) =>
      var o := EnsureOpen(c, opens);
      if !o.connected || !sent then o else RequestAtrIf(o.Did(PowerOnRequested), CARD_RESET_MSG, powers)
    case PowerDownMessage => if c.connected then c.Did(PowerOffRequested) else c
    case ResetMessage => if c.connected then c.Did(ResetRequested) else c
    case ResetDone(success) => RequestAtrIf(c, CARD_RESET_MSG, success)
  }

  /** What the decoder must have read for its result to be the request's. */
  lemma Decodes(msg: seq<Byte>, t: Transmit)
    requires |msg| >= 6 && t.h == Header(msg[2], msg[3], msg[4], msg[5])
    requires t.lc == (if |msg| < 8 then 0 else msg[6]) && (t.lc > 0 ==> |msg| >= t.lc + 7)
    requires |t.data| == t.lc && forall k :: 0 <= k < t.lc ==> t.data[k] == msg[k + 7]
    requires t.le == if |msg| == 7 then msg[6] else if |msg| > t.lc + 7 then msg[t.lc + 7] else 0
    ensures DecodeRequest(msg) == Some(t)
  {
    assert t.data == if t.lc > 0 then msg[7..t.lc + 7] else [];
  }

  /** Made for one transmitted APDU; remembers its id. */
  class ApduResponseCallback {
    const apduId: Byte

    constructor (apduId: Byte)
      ensures this.apduId == apduId
    {
      this.apduId := apduId;
    }

    /** The card's answer: all the callback knows about its request is the id it was made with. */
    method OnResponse(control: CardControl, data: seq<int>)
      modifies control`apduRespCbMap, control.conn`toDaemon
      ensures control.State() == Step(old(control.State()), ApduAnswered(apduId))
      ensures control.conn.toDaemon
           == if control.conn.daemonConnected then old(control.conn.toDaemon) + [ResponseBytes(data, apduId)]
              else old(control.conn.toDaemon)
    {
      control.conn.SendApduResponse(data, apduId);
      control.EraseFromApduRespCbMap(apduId);
    }
  }

  /** Made at start-up, one for each of the two messages that carry an answer to reset. */
  class AtrResponseCallback {
    const msgType: Byte

    constructor (msgType: Byte)
      ensures this.msgType == msgType
    {
      this.msgType := msgType;
    }

    method AtrResponse(conn: SimConnection, responseAtr: seq<int>)
      modifies conn`toDaemon
      ensures conn.toDaemon
           == if conn.daemonConnected && (msgType == CARD_RESET_MSG || msgType == CARD_INSERTED_MSG)
              then old(conn.toDaemon) + [AtrBytes(msgType, responseAtr)] else old(conn.toDaemon)
    {
      if msgType == CARD_RESET_MSG {
        conn.SendCardResetResponse(responseAtr);
      } else if msgType == CARD_INSERTED_MSG {
        conn.SendCardInsertedMessage(responseAtr);
      }
    }
  }

  class CardControl {
    var cardPresent: bool
    var cardConnected: bool
    var apduRespCbMap: map<Byte, ApduResponseCallback>
    var trace: seq<CardAction>
    const conn: SimConnection

    constructor (conn: SimConnection)
      ensures State() == INITIAL && this.conn == conn
    {
      cardPresent, cardConnected, apduRespCbMap, trace := false, false, map[], [];
      this.conn := conn;
    }

    function State(): Card
      reads this
    {
      Card(cardPresent, cardConnected, map id | id in apduRespCbMap :: apduRespCbMap[id].apduId, trace)
    }

    /** A request to the SAP card manager is recorded when it is made. */
    method Do(a: CardAction)
      modifies this`trace
      ensures trace == old(trace) + [a]
    {
      trace := trace + [a];
    }

    /** What init makes of the card it finds. */
    method Init(state: CardState)
      modifies this
      ensures State() == Step(old(State()), FoundAtStart(state))
    {
      if state == Absent {
        cardPresent := false;
        cardConnected := false;
        Do(Removed);
      } else if state == Present {
        cardPresent := true;
      }
    }

    method OnCardInfoChanged(state: CardState, opens: bool)
      modifies this, conn`toDaemon
      ensures State() == Step(old(State()), CardInfo(state, conn.daemonConnected, opens))
      ensures conn.toDaemon == if state == Absent && conn.daemonConnected
                then old(conn.toDaemon) + [[CARD_REMOVED_MSG]] else old(conn.toDaemon)
    {
      if state == Absent {
        cardPresent := false;
        cardConnected := false;
        Do(Removed);
        conn.SendCardRemovedMessage();
      } else if state == Present {
        cardPresent := true;
        ConnectAfterCardInsertion(opens);
      }
    }

    method ConnectAfterCardInsertion(opens: bool)
      requires cardPresent
      modifies this
      ensures State() == Step(old(State()), CardInfo(Present, conn.daemonConnected, opens))
    {
      if !cardConnected && conn.daemonConnected {
        var isOpen := OpenSapConn(opens);
        if !isOpen {
          return;
        }
      }
      Do(AtrRequested(CARD_INSERTED_MSG));
    }

    method OpenSapConn(opens: bool) returns (isOpen: bool)
      modifies this
      ensures State() == Open(old(State()), opens)
      ensures isOpen <==> old(cardPresent) && opens
    {
      if !cardPresent {
        return false;
      }
      if opens {
        cardConnected := true;
        Do(Opened);
      }
      isOpen := opens;
    }

    /** The loop of sendApduToSim: the data bytes, which begin at index 7. */
    static method CopyData(buf: array<Byte>, lc: Byte) returns (data: seq<Byte>)
      requires lc + 7 <= buf.Length
      ensures |data| == lc && forall k :: 0 <= k < lc ==> data[k] == buf[k + 7]
    {
      data := [];
      for i := 0 to lc
        invariant |data| == i && forall k :: 0 <= k < i ==> data[k] == buf[k + 7]
      {
        data := data + [buf[i + 7]];
      }
    }

    /** Decodes an APDU transfer message out of the receive buffer. Only the received bytes matter. */
    method SendApduToSim(buf: array<Byte>, bytes: nat)
      requires bytes <= buf.Length == BUF_LEN
      modifies this
      ensures State() == Step(old(State()), ApduMessage(buf[..bytes]))
    {
      ghost var msg := buf[..bytes];
      if !cardConnected {
        return;
      }
      if bytes < 6 {
        return;
      }
      var apduId := buf[1];
      var h := Header(buf[2], buf[3], buf[4], buf[5]);
      var lc: Byte := 0;
      if bytes >= 8 {
        lc := buf[6];
      }
      if lc > 0 && bytes < lc + 7 {
        return;
      }
      var data := CopyData(buf, lc);
      var le: Byte := 0;
      if bytes == 7 {
        le := buf[6];
      } else if bytes > lc + 7 {
        le := buf[lc + 7];
      }
      Decodes(msg, Transmit(h, lc, data, le));
      var callback := new ApduResponseCallback(apduId);
      apduRespCbMap := apduRespCbMap[apduId := callback];
      Do(Transmitted(apduRespCbMap[apduId].apduId, Transmit(h, lc, data, le)));
    }

    method EraseFromApduRespCbMap(apduId: Byte)
      modifies this`apduRespCbMap
      ensures State() == old(State()).(callbacks := old(State()).callbacks - {apduId})
    {
      apduRespCbMap := apduRespCbMap - {apduId};
    }

    method ConnectToCard(opens: bool)
      modifies this
      ensures State() == Step(old(State()), ConnectMessage(opens))
    {
      if !cardConnected {
        var isOpen := OpenSapConn(opens);
        if !isOpen {
          return;
        }
      }
      Do(AtrRequested(CARD_RESET_MSG));
    }

    method DisconnectFromCard()
      modifies this
      ensures State() == Step(old(State()), DisconnectMessage)
    {
      if !cardConnected {
        return;
      }
      Do(CloseRequested);
    }

    method PowerUpCard(opens: bool, sent: bool, powers: bool)
      modifies this
      ensures State() == Step(old(State()), PowerUpMessage(opens, sent, powers))
    {
      if !cardConnected {
        var isOpen := OpenSapConn(opens);
        if !isOpen {
          return;
        }
      }
      if !sent {
        return;
      }
      Do(PowerOnRequested);
      if powers {
        Do(AtrRequested(CARD_RESET_MSG));
      }
    }

    method PowerDownCard()
      modifies this
      ensures State() == Step(old(State()), PowerDownMessage)
    {
      if !cardConnected {
        return;
      }
      Do(PowerOffRequested);
    }

    method ResetCard()
      modifies this
      ensures State() == Step(old(State()), ResetMessage)
    {
      if !cardConnected {
        return;
      }
      Do(ResetRequested);
    }

    method OnResetResponse(success: bool)
      modifies this
      ensures State() == Step(old(State()), ResetDone(success))
    {
      if success {
        Do(AtrRequested(CARD_RESET_MSG));
      }
    }
  }

  const INITIAL := Card(false, false, map[], [])

  // ------------------------------------------------------------------ runs

  function After(c: Card, es: seq<CardEvent>): Card
    decreases |es|
  {
    if es == [] then c else After(Step(c, es[0]), es[1..])
  }

  /** The callback map changes only when an APDU is accepted or answered. */
  lemma CallbacksChange(c: Card, e: CardEvent)
    ensures Step(c, e).callbacks ==
      match e
      case ApduMessage(msg) =>
        if c.connected && DecodeRequest(msg).Some? then c.callbacks[msg[1] := msg[1]] else c.callbacks
      case ApduAnswered(id) => c.callbacks - {id}
      case _ => c.callbacks
  {}

  /** An inserted card is opened, if it has to be and a daemon is there to use it, and its answer to reset
      asked for as that of an inserted card; a failed open is the end of it. */
  lemma InsertionExactly(c: Card, daemonConnected: bool, opens: bool)
    ensures var c' := Step(c, CardInfo(Present, daemonConnected, opens));
      && c'.present
      && (c.connected || !daemonConnected ==>
            c'.connected == c.connected && c'.trace == c.trace + [AtrRequested(CARD_INSERTED_MSG)])
      && (!c.connected && daemonConnected && opens ==>
            c'.connected && c'.trace == c.trace + [Opened, AtrRequested(CARD_INSERTED_MSG)])
      && (!c.connected && daemonConnected && !opens ==> !c'.connected && c'.trace == c.trace)
  {
    var atr := AtrRequested(CARD_INSERTED_MSG);
    assert c.trace + [Opened] + [atr] == c.trace + [Opened, atr];
  }

  /** Whether the last report of a card's state, at start-up or later, was that there is one. */
  function LastReported(es: seq<CardEvent>): bool {
    if es == [] then false
    else
      match es[|es| - 1]
      case FoundAtStart(Present) => true
      case FoundAtStart(Absent) => false
      case CardInfo(Present, _, _) => true
      case CardInfo(Absent, _, _) => false
      case _ => LastReported(es[..|es| - 1])
  }

  lemma {:induction false} AfterSnoc(c: Card, es: seq<CardEvent>, e: CardEvent)
    ensures After(c, es + [e]) == Step(After(c, es), e)
    decreases |es|
  {
    if es == [] {
      assert [] + [e] == [e] && [e][1..] == [];
    } else {
      assert (es + [e])[1..] == es[1..] + [e];
      AfterSnoc(Step(c, es[0]), es[1..], e);
    }
  }

  /** Over every history from the start, the card counts as present exactly if that was last reported. */
  lemma {:induction false} PresentAsLastReported(es: seq<CardEvent>)
    ensures After(INITIAL, es).present == LastReported(es)
    decreases |es|
  {
    if es != [] {
      var front, e := es[..|es| - 1], es[|es| - 1];
      assert es == front + [e];
      AfterSnoc(INITIAL, front, e);
      PresentAsLastReported(front);
      PresenceChanges(After(INITIAL, front), e);
    }
  }

  lemma PresenceChanges(c: Card, e: CardEvent)
    ensures Step(c, e).present ==
      match e
      case FoundAtStart(state) => state == Present || (state == Other && c.present)
      case CardInfo(state, _, _) => state == Present || (state == Other && c.present)
      case _ => c.present
  {}

  /** A removed card, or one found absent, is no longer connected, and its history says that it is gone; after
      a reset that worked, and only then, its answer to reset is asked for. */
  lemma RemovalAndResetExactly(c: Card, daemonConnected: bool, opens: bool, success: bool)
    ensures var gone := Step(c, CardInfo(Absent, daemonConnected, opens));
      gone == Step(c, FoundAtStart(Absent)) && !gone.connected && gone.trace == c.trace + [Removed]
      && gone.callbacks == c.callbacks
    ensures Step(c, FoundAtStart(Present)).connected == c.connected && Step(c, FoundAtStart(Present)).trace == c.trace
    ensures Step(c, ResetDone(success)).trace == c.trace + if success then [AtrRequested(CARD_RESET_MSG)] else []
    ensures Step(c, ResetDone(success)).connected == c.connected
  {
    assert c.trace + [] == c.trace;
  }

  /** In a history, the connection was opened since the card was last removed, if it ever was. Asking to
      close it does not count. */
  predicate OpenSinceRemoval(trace: seq<CardAction>) {
    trace != [] &&
    match trace[|trace| - 1]
    case Opened => true
    case Removed => false
    case _ => OpenSinceRemoval(trace[..|trace| - 1])
  }

  /** Every APDU was transmitted after an open since the last removal. */
  predicate TransmitsOnlyWhenOpen(trace: seq<CardAction>) {
    forall i :: 0 <= i < |trace| && trace[i].Transmitted? ==> OpenSinceRemoval(trace[..i])
  }

  predicate Invariant(c: Card) {
    && (c.connected ==> c.present)
    && (c.connected <==> OpenSinceRemoval(c.trace))
    && TransmitsOnlyWhenOpen(c.trace)
  }

  lemma TraceGrows(trace: seq<CardAction>, a: CardAction)
    requires TransmitsOnlyWhenOpen(trace)
    requires a.Transmitted? ==> OpenSinceRemoval(trace)
    ensures TransmitsOnlyWhenOpen(trace + [a])
    ensures OpenSinceRemoval(trace + [a]) <==> a == Opened || (a != Removed && OpenSinceRemoval(trace))
  {
    var t := trace + [a];
    assert t[..|t| - 1] == trace;
    forall i | 0 <= i < |t| && t[i].Transmitted? ensures OpenSinceRemoval(t[..i]) {
      assert t[..i] == trace[..i];
    }
  }

  lemma InvariantDid(c: Card, a: CardAction)
    requires Invariant(c) && a != Opened && a != Removed && (a.Transmitted? ==> c.connected)
    ensures Invariant(c.Did(a))
  {
    TraceGrows(c.trace, a);
  }

  lemma InvariantOpen(c: Card, opens: bool)
    requires Invariant(c)
    ensures Invariant(Open(c, opens)) && Invariant(EnsureOpen(c, opens))
  {
    TraceGrows(c.trace, Opened);
  }

  lemma InvariantRequestAtrIf(c: Card, kind: Byte, isOpen: bool)
    requires Invariant(c)
    ensures Invariant(RequestAtrIf(c, kind, isOpen))
  {
    InvariantDid(c, AtrRequested(kind));
  }

  lemma InvariantStep(c: Card, e: CardEvent)
    requires Invariant(c)
    ensures Invariant(Step(c, e))
  {
    match e
    case FoundAtStart(state) => TraceGrows(c.trace, Removed);
    case CardInfo(Absent, _, _) => TraceGrows(c.trace, Removed);
    case CardInfo(Present, _, opens) =>
      var p := c.(present := true);
      InvariantDid(p, AtrRequested(CARD_INSERTED_MSG));
      InvariantOpen(p, opens);
      InvariantRequestAtrIf(Open(p, opens), CARD_INSERTED_MSG, opens);
    case CardInfo(Other, _, _) =>
    case ApduMessage(msg) =>
      if c.connected && DecodeRequest(msg).Some? {
        var callbacks := c.callbacks[msg[1] := msg[1]];
        InvariantDid(c.(callbacks := callbacks), Transmitted(callbacks[msg[1]], DecodeRequest(msg).value));
      }
    case ApduAnswered(_) =>
    case ConnectMessage(opens) =>
      InvariantOpen(c, opens);
      InvariantRequestAtrIf(EnsureOpen(c, opens), CARD_RESET_MSG, EnsureOpen(c, opens).connected);
    case DisconnectMessage => InvariantDid(c, CloseRequested);
    case PowerUpMessage(opens, sent, powers) =>
      var o := EnsureOpen(c, opens);
      InvariantOpen(c, opens);
      InvariantDid(o, PowerOnRequested);
      InvariantRequestAtrIf(o.Did(PowerOnRequested), CARD_RESET_MSG, powers);
    case PowerDownMessage => InvariantDid(c, PowerOffRequested);
    case ResetMessage => InvariantDid(c, ResetRequested);
    case ResetDone(success) => InvariantRequestAtrIf(c, CARD_RESET_MSG, success);
  }

  lemma {:induction false} InvariantRun(c: Card, es: seq<CardEvent>)
    requires Invariant(c)
    ensures Invariant(After(c, es))
    decreases |es|
  {
    if es != [] {
      InvariantStep(c, es[0]);
      InvariantRun(Step(c, es[0]), es[1..]);
    }
  }

  /** Over every history from the start: connected only while the card is present, connected exactly
      when a successful open followed the last removal, and APDUs transmitted in such moments only. */
  lemma ConnectedExactlyWhenOpened(es: seq<CardEvent>)
    ensures var c := After(INITIAL, es);
      && (c.connected ==> c.present)
      && (c.connected <==> OpenSinceRemoval(c.trace))
      && TransmitsOnlyWhenOpen(c.trace)
  {
    InvariantRun(INITIAL, es);
  }
}
