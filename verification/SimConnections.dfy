/** The connection object both programs use: connection state, keepalive and timeout, and the
    encoders that fill a byte buffer and write it. The daemon is the server, the provider the
    client; each process has its own SimConnection. */
module SimConnections {
  import opened Messages

  const KEEPALIVE_MSG_INTERVAL_SEC := 10
  const KEEPALIVE_MSG_TIMEOUT_SEC := 13

  /** What poll() and read() report in one iteration: whether the descriptor is readable, the bytes
      read (none: closed or failed), and whether an error event is set. */
  datatype Poll = Poll(readable: bool, data: seq<Byte>, error: bool)
  {
    predicate Fits() {
      |data| <= BUF_LEN
    }

    predicate Delivers() {
      readable && data != []
    }

    predicate Breaks() {
      (readable && data == []) || error
    }
  }

  const QUIET := Poll(false, [], false)

  function Delivery(data: seq<Byte>): Poll {
    Poll(true, data, false)
  }

  /** The daemon's end: clientConnected_, pendingKeepalive_ and lastReceivedMsgTime. */
  datatype DaemonEnd = DaemonEnd(connected: bool, pending: bool, last: int)

  /** The provider's end: daemonConnected_ and its lastReceivedMsgTime. */
  datatype ProviderEnd = ProviderEnd(connected: bool, last: int)

  datatype KeepaliveAction = NoAction | Probe | TimeoutDrop

  /** What the daemon does about a silent client: only a connection that survived this iteration's
      poll is looked at. */
  function DaemonAction(d: DaemonEnd, poll: Poll, now: int): KeepaliveAction {
    var silence := now - (if poll.Delivers() then now else d.last);
    if !d.connected || poll.Breaks() || silence <= KEEPALIVE_MSG_INTERVAL_SEC then NoAction
    else if !d.pending then Probe
    else if silence > KEEPALIVE_MSG_TIMEOUT_SEC then TimeoutDrop
    else NoAction
  }

  /** One call of handleClientConnection at clock reading now. */
  function DaemonIteration(d: DaemonEnd, poll: Poll, now: int): DaemonEnd {
    if !d.connected then DaemonEnd(true, d.pending, now)
    else
      var action := DaemonAction(d, poll, now);
      DaemonEnd(!poll.Breaks() && action != TimeoutDrop,
                action == Probe || (action == NoAction && d.pending && !poll.Delivers()),
                if poll.Delivers() then now else d.last)
  }

  /** One call of handleDaemonConnection at clock reading now. */
  function ProviderIteration(p: ProviderEnd, poll: Poll, now: int): ProviderEnd {
    if !p.connected then ProviderEnd(true, now)
    else
      var last := if poll.Delivers() then now else p.last;
      ProviderEnd(!poll.Breaks() && now - last <= KEEPALIVE_MSG_TIMEOUT_SEC, last)
  }

  /** What handleDaemonMsg writes back in that iteration: the answer to a keepalive request. */
  function ProviderReply(p: ProviderEnd, poll: Poll, now: int): seq<seq<Byte>> {
    if p.connected && poll.Delivers() && poll.data[0] == CONN_KEEPALIVE_MSG && ProviderIteration(p, poll, now).connected
    then [[CONN_KEEPALIVE_MSG]] else []
  }

  /** A connected client stays connected unless the read found the connection closed or failed, an error
      is set, or a probe went unanswered for more than 13 s; otherwise one is accepted. */
  lemma ClientKeptExactly(d: DaemonEnd, poll: Poll, now: int)
    ensures var d' := DaemonIteration(d, poll, now);
      && (d'.connected <==> d.connected ==>
            && !(poll.readable && poll.data == []) && !poll.error
            && !(!poll.readable && d.pending && now - d.last > 13))
      && d'.last == (if !d.connected || (poll.readable && poll.data != []) then now else d.last)
  {}

  /** A keepalive is sent exactly on a sound connection that read nothing for more than 10 s, unless one
      is pending; and one stays pending until something is read or the client given up. */
  lemma ProbedExactly(d: DaemonEnd, poll: Poll, now: int)
    ensures DaemonAction(d, poll, now) == Probe
       <==> d.connected && !poll.readable && !poll.error && now - d.last > 10 && !d.pending
    ensures d.connected ==>
      (DaemonIteration(d, poll, now).pending <==>
         || DaemonAction(d, poll, now) == Probe
         || (d.pending && (poll.readable ==> poll.data == [])
             && (poll.readable || poll.error || now - d.last <= 13)))
    ensures !d.connected ==> DaemonIteration(d, poll, now).pending == d.pending
  {}

  /** The provider keeps the daemon unless the read found the connection closed or failed, an error is
      set, or it heard nothing for more than 13 s; otherwise it connects. It answers exactly the keepalive
      requests that come without an error. */
  lemma DaemonKeptExactly(p: ProviderEnd, poll: Poll, now: int)
    ensures var p' := ProviderIteration(p, poll, now);
      && (p'.connected <==> p.connected ==>
            !(poll.readable && poll.data == []) && !poll.error && (poll.readable || now - p.last <= 13))
      && p'.last == (if !p.connected || (poll.readable && poll.data != []) then now else p.last)
    ensures ProviderReply(p, poll, now)
         == if p.connected && poll.readable && poll.data != [] && poll.data[0] == CONN_KEEPALIVE_MSG && !poll.error
            then [[CONN_KEEPALIVE_MSG]] else []
  {}

  /** What the modem asks of the card besides APDUs. */
  datatype CardRequest = Connect | Disconnect | PowerUp | PowerDown | Reset

  function CardRequestByte(r: CardRequest): Byte {
    match r
    case Connect => CARD_CONNECT_MSG
    case Disconnect => CARD_DISCONNECT_MSG
    case PowerUp => CARD_POWER_UP_MSG
    case PowerDown => CARD_POWER_DOWN_MSG
    case Reset => CARD_RESET_MSG
  }

  /** The bytes on the wire: the kind of message first, then the id or the length, then the payload. */
  lemma WireFormat(id: nat, apdu: seq<Byte>, data: seq<int>, apduId: Byte, kind: Byte)
    ensures RequestBytes(id, apdu)[..2] == [0, id % 256] && RequestBytes(id, apdu)[2..] == apdu
    ensures ResponseBytes(data, apduId)[..3] == [0, apduId, |data| % 256] && |ResponseBytes(data, apduId)| == |data| + 3
    ensures AtrBytes(kind, data)[..2] == [kind, |data| % 256] && |AtrBytes(kind, data)| == |data| + 2
    ensures forall i :: 0 <= i < |data| ==>
      ResponseBytes(data, apduId)[i + 3] == data[i] % 256 && AtrBytes(kind, data)[i + 2] == data[i] % 256
    ensures CardRequestByte(Connect) == 1 && CardRequestByte(Disconnect) == 2 && CardRequestByte(PowerUp) == 3
    ensures CardRequestByte(PowerDown) == 4 && CardRequestByte(Reset) == CARD_RESET_MSG == 5
    ensures CARD_INSERTED_MSG == 6 && CARD_REMOVED_MSG == 7 && CONN_KEEPALIVE_MSG == 8
  {}

  class SimConnection {
    var clientConnected: bool
    var daemonConnected: bool
    var pendingKeepalive: bool
    // The buffers handed to write(), in order, on either connection.
    var toClient: seq<seq<Byte>>
    var toDaemon: seq<seq<Byte>>

    constructor ()
      ensures !clientConnected && !daemonConnected && !pendingKeepalive
      ensures toClient == [] && toDaemon == []
    {
      clientConnected, daemonConnected, pendingKeepalive := false, false, false;
      toClient, toDaemon := [], [];
    }

    method SendRequest(buf: array<Byte>)
      modifies this`toClient
      ensures toClient == if clientConnected then old(toClient) + [old(buf[..])] else old(toClient)
    {
      if !clientConnected {
        return;
      }
      toClient := toClient + [buf[..]];
    }

    method SendResponse(buf: array<Byte>)
      modifies this`toDaemon
      ensures toDaemon == if daemonConnected then old(toDaemon) + [old(buf[..])] else old(toDaemon)
    {
      if !daemonConnected {
        return;
      }
      toDaemon := toDaemon + [buf[..]];
    }

    method SendApduRequest(id: nat, apdu: seq<Byte>)
      modifies this`toClient
      ensures toClient == if clientConnected then old(toClient) + [RequestBytes(id, apdu)] else old(toClient)
    {
      var buf := new Byte[2 + |apdu|](_ => 0);
      buf[0] := APDU_TRANSFER_MSG;
      buf[1] := ToByte(id);
      for i := 0 to |apdu|
        modifies buf
        invariant buf[..2] == [APDU_TRANSFER_MSG, ToByte(id)]
        invariant forall k :: 0 <= k < i ==> buf[k + 2] == apdu[k]
      {
        buf[i + 2] := apdu[i];
      }
      assert buf[..] == RequestBytes(id, apdu);
      SendRequest(buf);
    }

    /** sendCardConnectRequest and the four like it. */
    method SendCardRequest(r: CardRequest)
      modifies this`toClient
      ensures toClient == if clientConnected then old(toClient) + [[CardRequestByte(r)]] else old(toClient)
    {
      var kind: Byte;
      match r {
        case Connect => kind := CARD_CONNECT_MSG;
        case Disconnect => kind := CARD_DISCONNECT_MSG;
        case PowerUp => kind := CARD_POWER_UP_MSG;
        case PowerDown => kind := CARD_POWER_DOWN_MSG;
        case Reset => kind := CARD_RESET_MSG;
      }
      var buf := new Byte[] [kind];
      assert buf[..] == [kind];
      SendRequest(buf);
    }

    method SendApduResponse(data: seq<int>, apduId: Byte)
      modifies this`toDaemon
      ensures toDaemon == if daemonConnected then old(toDaemon) + [ResponseBytes(data, apduId)] else old(toDaemon)
    {
      var buf := new Byte[3 + |data|](_ => 0);
      buf[0] := APDU_TRANSFER_MSG;
      buf[1] := apduId;
      buf[2] := ToByte(|data|);
      for i := 0 to |data|
        modifies buf
        invariant buf[..3] == [APDU_TRANSFER_MSG, apduId, ToByte(|data|)]
        invariant forall k :: 0 <= k < i ==> buf[k + 3] == ToByte(data[k])
      {
        buf[i + 3] := ToByte(data[i]);
      }
      assert buf[..] == ResponseBytes(data, apduId);
      SendResponse(buf);
    }

    method SendCardResetResponse(responseAtr: seq<int>)
      modifies this`toDaemon
      ensures toDaemon
           == if daemonConnected then old(toDaemon) + [AtrBytes(CARD_RESET_MSG, responseAtr)] else old(toDaemon)
    {
      var buf := FillAtrBuffer(CARD_RESET_MSG, responseAtr);
      SendResponse(buf);
    }

    method SendCardInsertedMessage(responseAtr: seq<int>)
      modifies this`toDaemon
      ensures toDaemon
           == if daemonConnected then old(toDaemon) + [AtrBytes(CARD_INSERTED_MSG, responseAtr)] else old(toDaemon)
    {
      var buf := FillAtrBuffer(CARD_INSERTED_MSG, responseAtr);
      SendResponse(buf);
    }

    static method FillAtrBuffer(kind: Byte, atr: seq<int>) returns (buf: array<Byte>)
      ensures fresh(buf) && buf[..] == AtrBytes(kind, atr)
    {
      buf := new Byte[2 + |atr|](_ => 0);
      buf[0] := kind;
      buf[1] := ToByte(|atr|);
      for i := 0 to |atr|
        invariant buf[..2] == [kind, ToByte(|atr|)]
        invariant forall k :: 0 <= k < i ==> buf[k + 2] == ToByte(atr[k])
      {
        buf[i + 2] := ToByte(atr[i]);
      }
    }

    method SendCardRemovedMessage()
      modifies this`toDaemon
      ensures toDaemon == if daemonConnected then old(toDaemon) + [[CARD_REMOVED_MSG]] else old(toDaemon)
    {
      var buf := new Byte[] [CARD_REMOVED_MSG];
      assert buf[..] == [CARD_REMOVED_MSG];
      SendResponse(buf);
    }

    method SendConnKeepaliveResponse()
      modifies this`toDaemon
      ensures toDaemon == if daemonConnected then old(toDaemon) + [[CONN_KEEPALIVE_MSG]] else old(toDaemon)
    {
      var buf := new Byte[] [CONN_KEEPALIVE_MSG];
      assert buf[..] == [CONN_KEEPALIVE_MSG];
      SendResponse(buf);
    }

    method SendConnKeepaliveRequest()
      modifies this`toClient
      ensures toClient == if clientConnected then old(toClient) + [[CONN_KEEPALIVE_MSG]] else old(toClient)
    {
      var buf := new Byte[] [CONN_KEEPALIVE_MSG];
      assert buf[..] == [CONN_KEEPALIVE_MSG];
      SendRequest(buf);
    }

    function Daemon(last: int): DaemonEnd
      reads this
    {
      DaemonEnd(clientConnected, pendingKeepalive, last)
    }

    function Provider(last: int): ProviderEnd
      reads this
    {
      ProviderEnd(daemonConnected, last)
    }

    /** The daemon's side of one loop iteration. lastReceivedMsgTime is passed in and out. */
    method HandleClientConnection(poll: Poll, now: int, lastReceivedMsgTime: int, buf: array<Byte>)
      returns (msgReceived: bool, bytes: nat, last: int)
      requires poll.Fits() && buf.Length == BUF_LEN
      modifies this`clientConnected, this`pendingKeepalive, this`toClient, buf
      ensures Daemon(last) == DaemonIteration(old(Daemon(lastReceivedMsgTime)), poll, now)
      ensures var action := DaemonAction(old(Daemon(lastReceivedMsgTime)), poll, now);
        toClient == old(toClient) + if action == Probe then [[CONN_KEEPALIVE_MSG]] else []
      ensures msgReceived <==> old(clientConnected) && poll.Delivers()
      ensures msgReceived ==> bytes == |poll.data| && Holds(buf, poll.data)
    {
      last, msgReceived, bytes := lastReceivedMsgTime, false, 0;
      if clientConnected {
        if poll.readable {
          bytes := Read(poll.data, buf);
          if bytes <= 0 {
            clientConnected := false;
          } else {
            msgReceived := true;
            if pendingKeepalive {
              pendingKeepalive := false;
            }
            last := now;
          }
        }
        if clientConnected && poll.error {
          clientConnected := false;
        }
        if clientConnected && now - last > KEEPALIVE_MSG_INTERVAL_SEC {
          if !pendingKeepalive {
            pendingKeepalive := true;
            SendConnKeepaliveRequest();
          } else if now - last > KEEPALIVE_MSG_TIMEOUT_SEC {
            clientConnected := false;
            pendingKeepalive := false;
          }
        }
      } else {
        clientConnected := true;
        last := now;
      }
    }

    /** The provider's side of one loop iteration. */
    method HandleDaemonConnection(poll: Poll, now: int, lastReceivedMsgTime: int, buf: array<Byte>)
      returns (msgReceived: bool, bytes: nat, last: int)
      requires poll.Fits() && buf.Length == BUF_LEN
      modifies this`daemonConnected, buf
      ensures Provider(last) == ProviderIteration(old(Provider(lastReceivedMsgTime)), poll, now)
      ensures msgReceived <==> old(daemonConnected) && poll.Delivers()
      ensures msgReceived ==> bytes == |poll.data| && Holds(buf, poll.data)
    {
      last, msgReceived, bytes := lastReceivedMsgTime, false, 0;
      if daemonConnected {
        if poll.readable {
          bytes := Read(poll.data, buf);
          if bytes <= 0 {
            daemonConnected := false;
          } else {
            msgReceived := true;
            last := now;
          }
        }
        if daemonConnected && poll.error {
          daemonConnected := false;
        }
        if daemonConnected && now - last > KEEPALIVE_MSG_TIMEOUT_SEC {
          daemonConnected := false;
        }
      } else {
        daemonConnected := true;
        last := now;
      }
    }

    /** memset and read: the buffer holds the data followed by zeros. */
    static method Read(data: seq<Byte>, buf: array<Byte>) returns (bytes: nat)
      requires |data| <= buf.Length
      modifies buf
      ensures bytes == |data| && Holds(buf, data)
    {
      forall i | 0 <= i < buf.Length {
        buf[i] := if i < |data| then data[i] else 0;
      }
      bytes := |data|;
    }
  }

  /** The buffer holds msg and is zero beyond it. */
  predicate Holds(buf: array<Byte>, msg: seq<Byte>)
    reads buf
  {
    && |msg| <= buf.Length
    && buf[..|msg|] == msg
    && forall i :: |msg| <= i < buf.Length ==> buf[i] == 0
  }
}
