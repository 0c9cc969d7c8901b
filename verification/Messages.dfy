/** The byte messages exchanged by the remote-SIM daemon (modem side) and the SAP card provider
    (SIM side), the APDUs of section 10.1 of ETSI TS 102 221 they carry, and the laws that relate
    what one program encodes to what the other one decodes. */
module Messages {
  import opened Wrappers

  type Byte = b: int | 0 <= b < 256

  const BUF_LEN := 1024

  const APDU_TRANSFER_MSG: Byte := 0
  const CARD_CONNECT_MSG: Byte := 1
  const CARD_DISCONNECT_MSG: Byte := 2
  const CARD_POWER_UP_MSG: Byte := 3
  const CARD_POWER_DOWN_MSG: Byte := 4
  const CARD_RESET_MSG: Byte := 5
  const CARD_INSERTED_MSG: Byte := 6
  const CARD_REMOVED_MSG: Byte := 7
  const CONN_KEEPALIVE_MSG: Byte := 8

  /** Conversion of a C++ int (or a size) to uint8_t. */
  function ToByte(x: int): Byte {
    x % 256
  }

  function ToBytes(xs: seq<int>): seq<Byte> {
    seq(|xs|, i requires 0 <= i < |xs| => ToByte(xs[i]))
  }

  // ------------------------------------------------------------------ command APDUs

  datatype Header = Header(cla: Byte, ins: Byte, p1: Byte, p2: Byte)

  /** The four command APDU cases of section 10.1 of ETSI TS 102 221. */
  datatype Apdu =
    | Case1(h: Header)
    | Case2(h: Header, le: Byte)
    | Case3(h: Header, data: seq<Byte>)
    | Case4(h: Header, data: seq<Byte>, le: Byte)
  {
    predicate WellFormed() {
      Case3? || Case4? ==> 1 <= |data| <= 255
    }

    function Data(): seq<Byte> {
      if Case3? || Case4? then data else []
    }

    function Le(): Byte {
      if Case2? || Case4? then le else 0
    }

    /** The standard's layout: CLA INS P1 P2 [Lc Data] [Le]. */
    function Layout(): seq<Byte>
      requires WellFormed()
    {
      [h.cla, h.ins, h.p1, h.p2]
      + (if Case3? || Case4? then [|data|] + data else [])
      + (if Case2? || Case4? then [le] else [])
    }

    /** The same command with its response length made explicit. */
    function WithExplicitLe(): Apdu {
      match this
      case Case1(h) => Case2(h, 0)
      case Case3(h, data) => Case4(h, data, 0)
      case _ => this
    }
  }

  /** The arguments of one ISapCardManager::transmitApdu call. */
  datatype Transmit = Transmit(h: Header, lc: Byte, data: seq<Byte>, le: Byte)

  /** What sendApduRequest puts on the wire. */
  function RequestBytes(id: nat, apdu: seq<Byte>): seq<Byte> {
    [APDU_TRANSFER_MSG, ToByte(id)] + apdu
  }

  /** What sendApduToSim makes of a received message, when the card is connected. */
  function DecodeRequest(msg: seq<Byte>): Option<Transmit> {
    if |msg| < 6 then None
    else
      var lc: Byte := if |msg| < 8 then 0 else msg[6];
      if lc > 0 && |msg| < lc + 7 then None
      else
        var data := if lc > 0 then msg[7..lc + 7] else [];
        var le: Byte := if |msg| == 7 then msg[6] else if |msg| > lc + 7 then msg[lc + 7] else 0;
        Some(Transmit(Header(msg[2], msg[3], msg[4], msg[5]), lc, data, le))
  }

  /** Every well-formed APDU comes out of the provider's decoder as the daemon's encoder took it
      in, with its length as Lc and 0 for an absent Le; the id survives modulo 256. */
  lemma RequestRoundTrip(id: nat, a: Apdu)
    requires a.WellFormed()
    ensures DecodeRequest(RequestBytes(id, a.Layout()))
         == Some(Transmit(a.h, |a.Data()|, a.Data(), a.Le()))
    ensures RequestBytes(id, a.Layout())[1] == id % 256
  {
    var msg := RequestBytes(id, a.Layout());
    if a.Case3? || a.Case4? {
      var front: seq<Byte> := [APDU_TRANSFER_MSG, ToByte(id), a.h.cla, a.h.ins, a.h.p1, a.h.p2, |a.data|];
      assert msg == front + (a.data + if a.Case4? then [a.le] else []);
      assert |front| == 7 && msg[7..|a.data| + 7] == a.data;
    }
  }

  /** The decoder confuses two well-formed APDUs exactly when they differ by a trailing Le of 0. */
  lemma DecodingLosesOnlyAZeroLe(id: nat, a: Apdu, id': nat, b: Apdu)
    requires a.WellFormed() && b.WellFormed()
    ensures DecodeRequest(RequestBytes(id, a.Layout())) == DecodeRequest(RequestBytes(id', b.Layout()))
       <==> a.WithExplicitLe() == b.WithExplicitLe()
  {
    RequestRoundTrip(id, a);
    RequestRoundTrip(id', b);
  }

  /** msg is the request message of some well-formed APDU. */
  ghost predicate IsApduRequest(msg: seq<Byte>) {
    exists id: nat, a: Apdu :: a.WellFormed() && msg == RequestBytes(id, a.Layout())
  }

  /** Whether a request message is one of those the standard allows, by its length alone. */
  predicate StandardLength(msg: seq<Byte>) {
    |msg| == 6 || |msg| == 7 || (|msg| >= 8 && msg[6] > 0 && 7 <= |msg| - msg[6] <= 8)
  }

  /** The request messages of well-formed APDUs are exactly those of a standard length. */
  lemma StandardMessages(msg: seq<Byte>)
    requires |msg| >= 1 && msg[0] == APDU_TRANSFER_MSG
    ensures IsApduRequest(msg) <==> StandardLength(msg)
  {
    if IsApduRequest(msg) {
      var id: nat, a: Apdu :| a.WellFormed() && msg == RequestBytes(id, a.Layout());
      assert |msg| >= 8 ==> msg[6] == |a.Data()|;
    }
    if StandardLength(msg) {
      var a := ReadApdu(msg);
      assert msg == RequestBytes(msg[1], a.Layout());
    }
  }

  /** The APDU in a request message of a standard length. */
  function ReadApdu(msg: seq<Byte>): (a: Apdu)
    requires StandardLength(msg)
    ensures a.WellFormed() && a.Layout() == msg[2..]
  {
    var h := Header(msg[2], msg[3], msg[4], msg[5]);
    assert msg[2..] == [h.cla, h.ins, h.p1, h.p2] + msg[6..];
    assert |msg| >= 8 ==> msg[6..] == [msg[6]] + msg[7..] && msg[7..] == msg[7..|msg| - 1] + [msg[|msg| - 1]];
    if |msg| == 6 then Case1(h)
    else if |msg| == 7 then Case2(h, msg[6])
    else if |msg| - msg[6] == 7 then Case3(h, msg[7..])
    else Case4(h, msg[7..|msg| - 1], msg[|msg| - 1])
  }

  /** The decoder accepts every request for a well-formed APDU, and exactly these others: those
      with an explicit Lc of 0, and those with bytes after the Le. */
  lemma DecoderAcceptance(msg: seq<Byte>)
    requires |msg| >= 1 && msg[0] == APDU_TRANSFER_MSG
    ensures IsApduRequest(msg) ==> DecodeRequest(msg).Some?
    ensures DecodeRequest(msg).Some? && !IsApduRequest(msg)
       <==> |msg| >= 8 && (msg[6] == 0 || |msg| - msg[6] > 8)
  {
    StandardMessages(msg);
  }

  // ------------------------------------------------------------------ responses and ATRs

  /** What sendApduResponse puts on the wire. */
  function ResponseBytes(data: seq<int>, id: Byte): seq<Byte> {
    [APDU_TRANSFER_MSG, id, ToByte(|data|)] + ToBytes(data)
  }

  /** What sendCardResetResponse and sendCardInsertedMessage put on the wire. */
  function AtrBytes(kind: Byte, atr: seq<int>): seq<Byte> {
    [kind, ToByte(|atr|)] + ToBytes(atr)
  }

  /** A command the daemon gives the modem through IRemoteSimManager. */
  datatype ModemCommand =
    | SendApdu(id: Byte, apdu: seq<Byte>)
    | SendCardReset(atr: seq<Byte>)
    | SendCardInserted(atr: seq<Byte>)
    | SendCardRemoved
    | ConnectionAvailable
    | ConnectionUnavailable

  /** What handleClientMsg sends to the modem for one received message. */
  function Forwarded(msg: seq<Byte>): seq<ModemCommand>
    requires |msg| >= 1
  {
    if msg[0] == APDU_TRANSFER_MSG && |msg| >= 3 && msg[2] == |msg| - 3 then [SendApdu(msg[1], msg[3..])]
    else if msg[0] == CARD_RESET_MSG && |msg| >= 2 && msg[1] == |msg| - 2 then [SendCardReset(msg[2..])]
    else if msg[0] == CARD_INSERTED_MSG && |msg| >= 2 && msg[1] == |msg| - 2 then [SendCardInserted(msg[2..])]
    else if msg[0] == CARD_REMOVED_MSG then [SendCardRemoved]
    else []
  }

  /** What reaches the modem of the bytes of one write: each read takes as many as the buffer holds, and
      what it takes is handled as a message. */
  function Received(bytes: seq<Byte>): seq<ModemCommand> {
    if bytes == [] then []
    else if |bytes| <= BUF_LEN then Forwarded(bytes)
    else Forwarded(bytes[..BUF_LEN]) + Received(bytes[BUF_LEN..])
  }

  /** A response that fits the buffer reaches the modem whole, under its own id, when it has at most 255
      bytes, and not at all otherwise: the length byte that wrapped cannot match the byte count. One
      that does not fit is lost up to the buffer's length, and the rest taken for messages. */
  lemma ResponseWholeOrNothing(data: seq<int>, id: Byte)
    ensures Received(ResponseBytes(data, id))
         == if |data| <= 255 then [SendApdu(id, ToBytes(data))]
            else if |data| <= BUF_LEN - 3 then []
            else Received(ToBytes(data)[BUF_LEN - 3..])
  {
    var msg := ResponseBytes(data, id);
    assert msg[2] == |data| % 256 && msg[3..] == ToBytes(data);
    if |msg| > BUF_LEN {
      assert msg[BUF_LEN..] == ToBytes(data)[BUF_LEN - 3..];
      assert msg[..BUF_LEN][2] == msg[2];
      assert Forwarded(msg[..BUF_LEN]) == [];
    }
  }

  /** The same for both messages that carry an answer to reset. */
  lemma AtrWholeOrNothing(atr: seq<int>)
    ensures Received(AtrBytes(CARD_RESET_MSG, atr))
         == if |atr| <= 255 then [SendCardReset(ToBytes(atr))]
            else if |atr| <= BUF_LEN - 2 then []
            else Received(ToBytes(atr)[BUF_LEN - 2..])
    ensures Received(AtrBytes(CARD_INSERTED_MSG, atr))
         == if |atr| <= 255 then [SendCardInserted(ToBytes(atr))]
            else if |atr| <= BUF_LEN - 2 then []
            else Received(ToBytes(atr)[BUF_LEN - 2..])
  {
    AtrPieces(CARD_RESET_MSG, atr);
    AtrPieces(CARD_INSERTED_MSG, atr);
  }

  lemma AtrPieces(kind: Byte, atr: seq<int>)
    requires kind == CARD_RESET_MSG || kind == CARD_INSERTED_MSG
    ensures AtrBytes(kind, atr)[1] == |atr| % 256 && AtrBytes(kind, atr)[2..] == ToBytes(atr)
    ensures |atr| > BUF_LEN - 2 ==> Received(AtrBytes(kind, atr)) == Received(ToBytes(atr)[BUF_LEN - 2..])
  {
    var msg := AtrBytes(kind, atr);
    assert msg[2..] == ToBytes(atr);
    if |msg| > BUF_LEN {
      assert msg[BUF_LEN..] == ToBytes(atr)[BUF_LEN - 2..];
      assert msg[..BUF_LEN][1] == msg[1];
      assert Forwarded(msg[..BUF_LEN]) == [];
    }
  }

  /** Why a response has to fit: the last byte of one that is a byte too long can tell the modem that the
      card was removed. */
  lemma LongResponseMisread(data: seq<int>, id: Byte)
    requires |data| == BUF_LEN - 2 && ToByte(data[BUF_LEN - 3]) == CARD_REMOVED_MSG
    ensures Received(ResponseBytes(data, id)) == [SendCardRemoved]
  {
    ResponseWholeOrNothing(data, id);
    assert ToBytes(data)[BUF_LEN - 3..] == [CARD_REMOVED_MSG];
  }

  /** A vector of bytes is not changed by the conversion to uint8_t. */
  lemma BytesSurvive(data: seq<int>)
    requires forall i :: 0 <= i < |data| ==> 0 <= data[i] < 256
    ensures ToBytes(data) == data
  {}
}
