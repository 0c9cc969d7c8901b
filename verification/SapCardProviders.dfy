/** The provider's main loop: read from the daemon, then act on the message. */
module SapCardProviders {
  import opened Messages
  import opened SimConnections
  import opened CardControls

  /** Outcomes of the calls a message may lead to. */
  datatype Outcomes = Outcomes(opens: bool, sent: bool, powers: bool)

  /** The card's part in one daemon message; messages that are not for the card leave it alone. */
  function CardAfterMessage(c: Card, msg: seq<Byte>, o: Outcomes): Card
    requires msg != []
  {
    if msg[0] == APDU_TRANSFER_MSG then Step(c, ApduMessage(msg))
    else if msg[0] == CARD_CONNECT_MSG then Step(c, ConnectMessage(o.opens))
    else if msg[0] == CARD_DISCONNECT_MSG then Step(c, DisconnectMessage)
    else if msg[0] == CARD_POWER_UP_MSG then Step(c, PowerUpMessage(o.opens, o.sent, o.powers))
    else if msg[0] == CARD_POWER_DOWN_MSG then Step(c, PowerDownMessage)
    else if msg[0] == CARD_RESET_MSG then Step(c, ResetMessage)
    else c
  }

  /** What becomes of a request of the modem at the card, by way of both programs: on an open connection
      it is that request, and only after it was made the answer to reset; a card that is present is opened
      first to be connected to or powered up, and nothing else is done without a connection. */
  lemma RequestReachesCard(c: Card, r: CardRequest, o: Outcomes)
    ensures var c' := CardAfterMessage(c, [CardRequestByte(r)], o);
      var atr, powered := [AtrRequested(CARD_RESET_MSG)],
                          if !o.sent then [] else if o.powers then [PowerOnRequested, AtrRequested(CARD_RESET_MSG)]
                          else [PowerOnRequested];
      var open, opens := c.connected, !c.connected && c.present && o.opens;
      && c'.callbacks == c.callbacks && c'.present == c.present
      && (c'.connected <==> open || (opens && (r.Connect? || r.PowerUp?)))
      && c'.trace == c.trace +
           match r
           case Connect => if open then atr else if opens then [Opened] + atr else []
           case PowerUp => if open then powered else if opens then [Opened] + powered else []
           case Disconnect => if open then [CloseRequested] else []
           case PowerDown => if open then [PowerOffRequested] else []
           case Reset => if open then [ResetRequested] else []
  {
    assert c.trace + [] == c.trace;
    var atr, after := AtrRequested(CARD_RESET_MSG), c.trace + [Opened];
    match r
    case Connect => assert after + [atr] == c.trace + ([Opened] + [atr]);
    case PowerUp =>
      assert c.trace + [PowerOnRequested] + [atr] == c.trace + [PowerOnRequested, atr];
      assert after + [PowerOnRequested] == c.trace + ([Opened] + [PowerOnRequested]);
      assert after + [PowerOnRequested] + [atr] == c.trace + ([Opened] + [PowerOnRequested, atr]);
      assert after == c.trace + ([Opened] + []);
    case _ =>
  }

  /** Neither a keepalive nor a message of no known kind touches the card. */
  lemma OtherMessagesLeaveCard(c: Card, msg: seq<Byte>, o: Outcomes)
    requires msg != [] && msg[0] >= CARD_INSERTED_MSG
    ensures CardAfterMessage(c, msg, o) == c
  {}

  class SapCardProvider {
    const cardControl: CardControl
    const simConnection: SimConnection

    constructor (cardControl: CardControl)
      ensures this.cardControl == cardControl && simConnection == cardControl.conn
    {
      this.cardControl := cardControl;
      this.simConnection := cardControl.conn;
    }

    method HandleDaemonMsg(buf: array<Byte>, bytes: nat, o: Outcomes)
      requires 1 <= bytes <= buf.Length == BUF_LEN
      modifies cardControl, simConnection`toDaemon
      ensures cardControl.State() == CardAfterMessage(old(cardControl.State()), buf[..bytes], o)
      ensures simConnection.toDaemon
           == if buf[0] == CONN_KEEPALIVE_MSG && simConnection.daemonConnected
              then old(simConnection.toDaemon) + [[CONN_KEEPALIVE_MSG]] else old(simConnection.toDaemon)
    {
      if buf[0] == APDU_TRANSFER_MSG {
        cardControl.SendApduToSim(buf, bytes);
      } else if buf[0] == CARD_CONNECT_MSG {
        cardControl.ConnectToCard(o.opens);
      } else if buf[0] == CARD_DISCONNECT_MSG {
        cardControl.DisconnectFromCard();
      } else if buf[0] == CARD_POWER_UP_MSG {
        cardControl.PowerUpCard(o.opens, o.sent, o.powers);
      } else if buf[0] == CARD_POWER_DOWN_MSG {
        cardControl.PowerDownCard();
      } else if buf[0] == CARD_RESET_MSG {
        cardControl.ResetCard();
      } else if buf[0] == CONN_KEEPALIVE_MSG {
        simConnection.SendConnKeepaliveResponse();
      }
    }

    /** One turn of the loop in runClient. */
    method LoopIteration(poll: Poll, now: int, lastReceivedMsgTime: int, buf: array<Byte>, o: Outcomes)
      returns (last: int)
      requires poll.Fits() && buf.Length == BUF_LEN
      modifies cardControl, simConnection`toDaemon, simConnection`daemonConnected, buf
      ensures simConnection.Provider(last)
           == ProviderIteration(old(simConnection.Provider(lastReceivedMsgTime)), poll, now)
      ensures simConnection.toDaemon == old(simConnection.toDaemon)
                + ProviderReply(old(simConnection.Provider(lastReceivedMsgTime)), poll, now)
      ensures cardControl.State() == if old(simConnection.daemonConnected) && poll.Delivers()
                then CardAfterMessage(old(cardControl.State()), poll.data, o) else old(cardControl.State())
    {
      var msgReceived, bytes;
      msgReceived, bytes, last := simConnection.HandleDaemonConnection(poll, now, lastReceivedMsgTime, buf);
      if msgReceived {
        HandleDaemonMsg(buf, bytes, o);
      }
    }
  }
}
