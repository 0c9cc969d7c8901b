/** The daemon's main loop: forward client messages to the modem and keep the modem informed
    whether a client is there. */
module RemoteSimDaemons {
  import opened Messages
  import opened SimConnections

  datatype ServiceStatus = ServiceUnavailable | ServiceAvailable | ServiceOther

  /** modemConnected_, and everything the modem has been sent. */
  datatype Modem = Modem(announced: bool, sent: seq<ModemCommand>)

  /** The modem is told only when what it was told last no longer holds. */
  function Announce(m: Modem, available: bool): Modem {
    if m.announced == available then m
    else Modem(available, m.sent + [if available then ConnectionAvailable else ConnectionUnavailable])
  }

  datatype Daemon = Daemon(end: DaemonEnd, modem: Modem)

  datatype Event = Loop(poll: Poll, now: int) | Service(status: ServiceStatus)

  function Step(d: Daemon, e: Event): Daemon {
    match e
    case Loop(poll, now) =>
      var end := DaemonIteration(d.end, poll, now);
      var forwarded := if d.end.connected && poll.Delivers() then Forwarded(poll.data) else [];
      Daemon(end, Announce(Modem(d.modem.announced, d.modem.sent + forwarded), end.connected))
    case Service(status) =>
      if status == ServiceUnavailable then d.(modem := Announce(d.modem, false))
      else if status == ServiceAvailable && d.end.connected then d.(modem := Announce(d.modem, true))
      else d
  }

  class RemoteSimDaemon {
    const simConnection: SimConnection
    var modemConnected: bool
    var toModem: seq<ModemCommand>

    /** The state initDaemon leaves: a client accepted, its availability announced. */
    constructor (simConnection: SimConnection)
      ensures this.simConnection == simConnection
      ensures modemConnected && toModem == [ConnectionAvailable]
    {
      this.simConnection := simConnection;
      modemConnected, toModem := true, [ConnectionAvailable];
    }

    function State(last: int): Daemon
      reads this, simConnection
    {
      Daemon(simConnection.Daemon(last), Modem(modemConnected, toModem))
    }

    method Send(c: ModemCommand)
      modifies this`toModem
      ensures toModem == old(toModem) + [c]
    {
      toModem := toModem + [c];
    }

    method NotifyModemConnAvailable()
      modifies this
      ensures Modem(modemConnected, toModem) == Announce(old(Modem(modemConnected, toModem)), true)
    {
      if !modemConnected {
        Send(ConnectionAvailable);
        modemConnected := true;
      }
    }

    method NotifyModemConnUnavailable()
      modifies this
      ensures Modem(modemConnected, toModem) == Announce(old(Modem(modemConnected, toModem)), false)
    {
      if modemConnected {
        Send(ConnectionUnavailable);
        modemConnected := false;
      }
    }

    method OnServiceStatusChange(status: ServiceStatus, ghost last: int)
      modifies this
      ensures State(last) == Step(old(State(last)), Service(status))
    {
      if status == ServiceUnavailable {
        NotifyModemConnUnavailable();
      } else if status == ServiceAvailable {
        if simConnection.clientConnected {
          NotifyModemConnAvailable();
        }
      }
    }

    /** The bytes from index from on, as many as the length byte says. */
    method CopyOut(buf: array<Byte>, from: nat, count: nat) returns (bytes: seq<Byte>)
      requires from + count <= buf.Length
      ensures bytes == buf[from..from + count]
    {
      bytes := [];
      for i := from to from + count
        invariant bytes == buf[from..i]
      {
        bytes := bytes + [buf[i]];
      }
    }

    method HandleApduTransfer(buf: array<Byte>, bytes: nat)
      requires 1 <= bytes <= buf.Length == BUF_LEN && buf[0] == APDU_TRANSFER_MSG
      modifies this`toModem
      ensures toModem == old(toModem) + Forwarded(buf[..bytes])
    {
      if bytes < 3 {
        return;
      }
      var apduId := buf[1];
      if bytes - 3 == buf[2] {
        var apdu := CopyOut(buf, 3, buf[2]);
        assert apdu == buf[..bytes][3..];
        Send(SendApdu(apduId, apdu));
      }
    }

    method HandleCardReset(buf: array<Byte>, bytes: nat)
      requires 1 <= bytes <= buf.Length == BUF_LEN && buf[0] == CARD_RESET_MSG
      modifies this`toModem
      ensures toModem == old(toModem) + Forwarded(buf[..bytes])
    {
      if bytes - 2 == buf[1] {
        var atr := CopyOut(buf, 2, buf[1]);
        assert atr == buf[..bytes][2..];
        Send(SendCardReset(atr));
      }
    }

    method HandleCardInserted(buf: array<Byte>, bytes: nat)
      requires 1 <= bytes <= buf.Length == BUF_LEN && buf[0] == CARD_INSERTED_MSG
      modifies this`toModem
      ensures toModem == old(toModem) + Forwarded(buf[..bytes])
    {
      if bytes - 2 == buf[1] {
        var atr := CopyOut(buf, 2, buf[1]);
        assert atr == buf[..bytes][2..];
        Send(SendCardInserted(atr));
      }
    }

    method HandleClientMsg(buf: array<Byte>, bytes: nat)
      requires 1 <= bytes <= buf.Length == BUF_LEN
      modifies this`toModem
      ensures toModem == old(toModem) + Forwarded(buf[..bytes])
    {
      if buf[0] == APDU_TRANSFER_MSG {
        HandleApduTransfer(buf, bytes);
      } else if buf[0] == CARD_RESET_MSG {
        HandleCardReset(buf, bytes);
      } else if buf[0] == CARD_INSERTED_MSG {
        HandleCardInserted(buf, bytes);
      } else if buf[0] == CARD_REMOVED_MSG {
        Send(SendCardRemoved);
      }
    }

    /** One turn of the loop in runDaemon. */
    method LoopIteration(poll: Poll, now: int, lastReceivedMsgTime: int, buf: array<Byte>) returns (last: int)
      requires poll.Fits() && buf.Length == BUF_LEN
      modifies this, simConnection, buf
      ensures State(last) == Step(old(State(lastReceivedMsgTime)), Loop(poll, now))
    {
      var receivedMsg, bytes;
      receivedMsg, bytes, last := simConnection.HandleClientConnection(poll, now, lastReceivedMsgTime, buf);
      if receivedMsg {
        HandleClientMsg(buf, bytes);
      }
      if simConnection.clientConnected && !modemConnected {
        NotifyModemConnAvailable();
      } else if !simConnection.clientConnected && modemConnected {
        NotifyModemConnUnavailable();
      }
    }
  }

  // ------------------------------------------------------------------ runs

  function After(d: Daemon, es: seq<Event>): Daemon
    decreases |es|
  {
    if es == [] then d else After(Step(d, es[0]), es[1..])
  }

  /** The availability announcements among the commands, in order. */
  function Announcements(sent: seq<ModemCommand>): seq<bool> {
    if sent == [] then []
    else
      var c := sent[|sent| - 1];
      Announcements(sent[..|sent| - 1])
      + if c == ConnectionAvailable then [true] else if c == ConnectionUnavailable then [false] else []
  }

  predicate Alternating(s: seq<bool>) {
    forall i :: 0 < i < |s| ==> s[i] != s[i - 1]
  }

  predicate Invariant(m: Modem) {
    var a := Announcements(m.sent);
    a != [] && a[0] && a[|a| - 1] == m.announced && Alternating(a)
  }

  lemma InvariantAnnounce(m: Modem, available: bool)
    requires Invariant(m)
    ensures Invariant(Announce(m, available))
  {
    var m' := Announce(m, available);
    if m' != m {
      assert m'.sent[..|m'.sent| - 1] == m.sent;
    }
  }

  lemma InvariantForward(m: Modem, msg: seq<Byte>)
    requires Invariant(m) && msg != []
    ensures Invariant(Modem(m.announced, m.sent + Forwarded(msg)))
  {
    var sent := m.sent + Forwarded(msg);
    if Forwarded(msg) == [] {
      assert sent == m.sent;
    } else {
      assert sent[..|sent| - 1] == m.sent;
    }
  }

  lemma InvariantStep(d: Daemon, e: Event)
    requires Invariant(d.modem)
    ensures Invariant(Step(d, e).modem)
    ensures e.Loop? ==> Step(d, e).modem.announced == Step(d, e).end.connected
  {
    match e
    case Loop(poll, now) =>
      if d.end.connected && poll.Delivers() {
        InvariantForward(d.modem, poll.data);
        InvariantAnnounce(Modem(d.modem.announced, d.modem.sent + Forwarded(poll.data)), Step(d, e).end.connected);
      } else {
        assert d.modem.sent + [] == d.modem.sent;
        InvariantAnnounce(d.modem, Step(d, e).end.connected);
      }
    case Service(status) =>
      InvariantAnnounce(d.modem, true);
      InvariantAnnounce(d.modem, false);
  }

  lemma {:induction false} InvariantRun(d: Daemon, es: seq<Event>)
    requires Invariant(d.modem)
    ensures Invariant(After(d, es).modem)
    ensures es != [] && es[|es| - 1].Loop? ==> After(d, es).modem.announced == After(d, es).end.connected
    decreases |es|
  {
    if es != [] {
      InvariantStep(d, es[0]);
      InvariantRun(Step(d, es[0]), es[1..]);
    }
  }

  /** From the state initDaemon leaves, whatever loop iterations and service notifications come in
      whatever order: availability and unavailability are announced in strict alternation, starting
      with the former, the last one is what modemConnected_ says, and after each loop iteration it is
      the truth about the client. */
  lemma AnnouncementsAlternate(end: DaemonEnd, es: seq<Event>)
    ensures var d := After(Daemon(end, Modem(true, [ConnectionAvailable])), es);
      && Announcements(d.modem.sent) != [] && Announcements(d.modem.sent)[0]
      && Alternating(Announcements(d.modem.sent))
      && Announcements(d.modem.sent)[|Announcements(d.modem.sent)| - 1] == d.modem.announced
      && (es != [] && es[|es| - 1].Loop? ==> d.modem.announced == d.end.connected)
  {
    assert [ConnectionAvailable][..0] == [];
    InvariantRun(Daemon(end, Modem(true, [ConnectionAvailable])), es);
  }

  // ------------------------------------------------------------------ connection and announcements

  /** Wherever a run has got to: a loop turn that finds the connection closed or in error ends with the
      client given up and unavailability as the last announcement; one that accepts a client, with
      availability. */
  lemma DisconnectAnnounced(end: DaemonEnd, es: seq<Event>, poll: Poll, now: int)
    ensures var d := After(Daemon(end, Modem(true, [ConnectionAvailable])), es);
      var d' := Step(d, Loop(poll, now)); var a := Announcements(d'.modem.sent);
      && a != []
      && (d.end.connected && ((poll.readable && poll.data == []) || poll.error) ==> !d'.end.connected && !a[|a| - 1])
      && (!d.end.connected ==> d'.end.connected && a[|a| - 1])
  {
    var start := Daemon(end, Modem(true, [ConnectionAvailable]));
    var d := After(start, es);
    assert [ConnectionAvailable][..0] == [];
    InvariantRun(start, es);
    InvariantStep(d, Loop(poll, now));
    ClientKeptExactly(d.end, poll, now);
  }

  /** A service that goes down is announced, one that comes up with a client there too, if the modem was
      last told otherwise; no other notification does anything. */
  lemma ServiceAnnounced(d: Daemon, status: ServiceStatus)
    ensures var m, m' := d.modem, Step(d, Service(status)).modem;
      && Step(d, Service(status)).end == d.end
      && (status == ServiceUnavailable && m.announced ==> m' == Modem(false, m.sent + [ConnectionUnavailable]))
      && (status == ServiceAvailable && d.end.connected && !m.announced ==>
            m' == Modem(true, m.sent + [ConnectionAvailable]))
      && (status == ServiceOther || (status == ServiceAvailable && !d.end.connected)
          || (status == ServiceUnavailable && !m.announced) || (status == ServiceAvailable && m.announced)
          ==> m' == m)
  {}

  // ------------------------------------------------------------------ what the modem is given

  /** The commands of some kind, in order. */
  function Only(sent: seq<ModemCommand>, kind: ModemCommand -> bool): seq<ModemCommand> {
    if sent == [] then [] else (if kind(sent[0]) then [sent[0]] else []) + Only(sent[1..], kind)
  }

  lemma {:induction false} OnlyAppend(sent: seq<ModemCommand>, more: seq<ModemCommand>, kind: ModemCommand -> bool)
    ensures Only(sent + more, kind) == Only(sent, kind) + Only(more, kind)
    decreases |sent|
  {
    if sent == [] {
      assert sent + more == more;
    } else {
      var first, rest := if kind(sent[0]) then [sent[0]] else [], sent[1..];
      assert (sent + more)[1..] == rest + more;
      OnlyAppend(rest, more, kind);
      assert first + (Only(rest, kind) + Only(more, kind)) == (first + Only(rest, kind)) + Only(more, kind);
    }
  }

  lemma OnlyOne(c: ModemCommand, kind: ModemCommand -> bool)
    ensures Only([c], kind) == if kind(c) then [c] else []
  {
    assert [c][1..] == [];
  }

  lemma OnlySplit(sent: seq<ModemCommand>, all: seq<ModemCommand>, kind: ModemCommand -> bool)
    requires sent <= all
    ensures Only(all, kind) == Only(sent, kind) + Only(all[|sent|..], kind)
  {
    assert all == sent + all[|sent|..];
    OnlyAppend(sent, all[|sent|..], kind);
  }

  predicate NoAnnouncement(c: ModemCommand) {
    c != ConnectionAvailable && c != ConnectionUnavailable
  }

  /** The commands that are no announcements. */
  function Relayed(sent: seq<ModemCommand>): seq<ModemCommand> {
    Only(sent, NoAnnouncement)
  }

  predicate ReadsMessage(d: Daemon, e: Event) {
    e.Loop? && d.end.connected && e.poll.readable && e.poll.data != []
  }

  /** The messages read from a connected client in a run, in order. */
  function Reads(d: Daemon, es: seq<Event>): seq<seq<Byte>>
    decreases |es|
  {
    if es == [] then []
    else
      (if ReadsMessage(d, es[0]) then [es[0].poll.data] else []) + Reads(Step(d, es[0]), es[1..])
  }

  function AllForwarded(msgs: seq<seq<Byte>>): seq<ModemCommand> {
    if msgs == [] then []
    else (if msgs[0] == [] then [] else Forwarded(msgs[0])) + AllForwarded(msgs[1..])
  }

  /** One loop turn: the commands of the message come first, and then at most an announcement. */
  lemma LoopSends(d: Daemon, poll: Poll, now: int)
    ensures var d' := Step(d, Loop(poll, now));
      d'.modem.sent == d.modem.sent
        + (if d.end.connected && poll.readable && poll.data != [] then Forwarded(poll.data) else [])
        + (if d'.end.connected == d.modem.announced then []
           else if d'.end.connected then [ConnectionAvailable] else [ConnectionUnavailable])
  {}

  lemma StepGrows(d: Daemon, e: Event)
    ensures d.modem.sent <= Step(d, e).modem.sent
  {
    if e.Loop? {
      LoopSends(d, e.poll, e.now);
    }
  }

  /** The commands that one event adds. */
  function Added(d: Daemon, e: Event): seq<ModemCommand> {
    StepGrows(d, e);
    Step(d, e).modem.sent[|d.modem.sent|..]
  }

  function ReadBy(d: Daemon, e: Event): seq<ModemCommand> {
    if ReadsMessage(d, e) then Forwarded(e.poll.data) else []
  }

  /** They are those of the message it reads, and at most one announcement. */
  lemma EventAdds(d: Daemon, e: Event) returns (announced: seq<ModemCommand>)
    ensures announced == [] || announced == [ConnectionAvailable] || announced == [ConnectionUnavailable]
    ensures Added(d, e) == ReadBy(d, e) + announced
  {
    if e.Loop? {
      LoopSends(d, e.poll, e.now);
      announced := Added(d, e)[|ReadBy(d, e)|..];
    } else {
      ServiceAnnounced(d, e.status);
      announced := Added(d, e);
    }
  }

  /** So far as a kind of commands goes that no announcement is of, an event adds those of the message
      it reads. */
  lemma EventAddsOnly(d: Daemon, e: Event, kind: ModemCommand -> bool)
    requires !kind(ConnectionAvailable) && !kind(ConnectionUnavailable)
    ensures Only(Added(d, e), kind) == Only(ReadBy(d, e), kind)
    ensures Only(Step(d, e).modem.sent, kind) == Only(d.modem.sent, kind) + Only(ReadBy(d, e), kind)
  {
    var announced := EventAdds(d, e);
    OnlyAppend(ReadBy(d, e), announced, kind);
    if announced != [] {
      OnlyOne(announced[0], kind);
    }
    StepGrows(d, e);
    OnlySplit(d.modem.sent, Step(d, e).modem.sent, kind);
  }

  lemma ForwardedRelayed(msg: seq<Byte>)
    requires msg != []
    ensures Relayed(Forwarded(msg)) == Forwarded(msg)
  {
    var commands := Forwarded(msg);
    if commands != [] {
      assert commands == [commands[0]];
      OnlyOne(commands[0], NoAnnouncement);
    }
  }

  /** What one event relays: the commands of the message it reads, if it reads one. */
  lemma StepRelays(d: Daemon, e: Event)
    ensures Relayed(Step(d, e).modem.sent) == Relayed(d.modem.sent) + ReadBy(d, e)
  {
    EventAddsOnly(d, e, NoAnnouncement);
    if ReadsMessage(d, e) {
      ForwardedRelayed(e.poll.data);
    }
  }

  /** Over all runs, what the modem is given besides announcements is exactly what the messages read from
      connected clients say, in order: nothing is left out, added or repeated. */
  lemma {:induction false} RelaysExactly(d: Daemon, es: seq<Event>)
    ensures Relayed(After(d, es).modem.sent) == Relayed(d.modem.sent) + AllForwarded(Reads(d, es))
    decreases |es|
  {
    if es != [] {
      StepRelays(d, es[0]);
      RelaysExactly(Step(d, es[0]), es[1..]);
      var rest := Reads(Step(d, es[0]), es[1..]);
      if ReadsMessage(d, es[0]) {
        assert Reads(d, es)[1..] == rest;
      } else {
        assert Reads(d, es) == rest;
      }
    }
  }

  /** A response of at most 255 bytes read from a connected client reaches the modem, whole and under its
      id, before any announcement. So do the answers to reset, and a removal. */
  lemma ResponseReachesModem(d: Daemon, data: seq<int>, id: Byte, now: int)
    requires d.end.connected && |data| <= 255
    ensures d.modem.sent + [SendApdu(id, ToBytes(data))]
         <= Step(d, Loop(Delivery(ResponseBytes(data, id)), now)).modem.sent
    ensures d.modem.sent + [SendCardReset(ToBytes(data))]
         <= Step(d, Loop(Delivery(AtrBytes(CARD_RESET_MSG, data)), now)).modem.sent
    ensures d.modem.sent + [SendCardInserted(ToBytes(data))]
         <= Step(d, Loop(Delivery(AtrBytes(CARD_INSERTED_MSG, data)), now)).modem.sent
    ensures d.modem.sent + [SendCardRemoved] <= Step(d, Loop(Delivery([CARD_REMOVED_MSG]), now)).modem.sent
  {
    ResponseWholeOrNothing(data, id);
    AtrWholeOrNothing(data);
    LoopSends(d, Delivery(ResponseBytes(data, id)), now);
    LoopSends(d, Delivery(AtrBytes(CARD_RESET_MSG, data)), now);
    LoopSends(d, Delivery(AtrBytes(CARD_INSERTED_MSG, data)), now);
    LoopSends(d, Delivery([CARD_REMOVED_MSG]), now);
  }

  /** The loop turns that read the bytes of one write. */
  function ReadingOf(bytes: seq<Byte>, now: int): seq<Event> {
    if bytes == [] then []
    else if |bytes| <= BUF_LEN then [Loop(Delivery(bytes), now)]
    else [Loop(Delivery(bytes[..BUF_LEN]), now)] + ReadingOf(bytes[BUF_LEN..], now)
  }

  /** What Received says is what the daemon makes of those turns. */
  lemma {:induction false} ReceivedIsRelayed(d: Daemon, bytes: seq<Byte>, now: int)
    requires d.end.connected
    ensures Relayed(After(d, ReadingOf(bytes, now)).modem.sent) == Relayed(d.modem.sent) + Received(bytes)
    decreases |bytes|
  {
    var es := ReadingOf(bytes, now);
    if bytes != [] {
      StepRelays(d, es[0]);
      ClientKeptExactly(d.end, es[0].poll, now);
      if |bytes| > BUF_LEN {
        assert es[1..] == ReadingOf(bytes[BUF_LEN..], now);
        ReceivedIsRelayed(Step(d, es[0]), bytes[BUF_LEN..], now);
      } else {
        assert After(Step(d, es[0]), es[1..]) == Step(d, es[0]);
      }
    }
  }
}
