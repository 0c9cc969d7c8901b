/** The eCall application: call bookkeeping (TelClient), the recovery from a failed emergency network
    scan by switching the high-capability slot and redialling (EcallScanFailHandler), the resources
    held for a call (ECallManager) and the thermal shutdown protection (ThermClient).

    This module holds the state as values and what each event makes of it. Outcomes of calls into
    the telephony and thermal libraries are parameters of the events. */
module ECalls {
  import opened Wrappers

  type Msd = seq<int>

  const INVALID_SLOT_ID := -1

  /** An eCall to the standard number, or a voice eCall to a custom one. */
  datatype Dial = Standard(variant: int) | Custom(number: string)

  datatype Params = Params(category: int, dial: Dial, msdData: Msd, transmitMsd: bool)

  datatype MsdStatus = MsdSuccess | MsdFailure | MsdOther(code: int)

  datatype ECallInfo =
    ECallInfo(params: Params, eCallNWScanFailed: bool, triggerHighCapSwitch: bool, msdStatus: MsdStatus)

  /** What operator[] puts in the map for a slot it does not hold. */
  const DEFAULT_INFO := ECallInfo(Params(0, Standard(0), [], false), false, false, MsdSuccess)

  datatype Call = Call(phoneId: int, index: int)

  datatype CallState = Dialing | Incoming | Ended | OtherState

  datatype CallView = CallView(call: Call, state: CallState)

  /** One makeECall request to the call manager and whether it was accepted. */
  datatype MakeCall = MakeCall(slot: int, params: Params, accepted: bool)

  /** What the scan-fail handler asks of the multi-SIM manager, and whether the request was accepted. */
  datatype SwitchRequest = SlotQuery(accepted: bool) | SwitchTo(slot: int, accepted: bool)

  datatype Tel = Tel(
    eCall: Option<Call>,
    inProgress: bool,
    listening: bool,
    data: map<int, ECallInfo>,
    made: seq<MakeCall>,
    asked: seq<SwitchRequest>)
  {
    function Info(slot: int): ECallInfo {
      if slot in data then data[slot] else DEFAULT_INFO
    }

    function Erase(slot: int): Tel {
      this.(data := data - {slot})
    }
  }

  // ------------------------------------------------------------------ TelClient

  function Start(t: Tel, slot: int, params: Params, listening: bool, accepted: bool): Tel {
    var t' := t.(inProgress := accepted, made := t.made + [MakeCall(slot, params, accepted)]);
    if accepted then t'.(listening := listening, data := t.data[slot := ECallInfo(params, false, false, MsdFailure)])
    else t'
  }

  function FirstIncoming(calls: seq<CallView>, phoneId: int): Option<Call> {
    if calls == [] then None
    else if calls[0] == CallView(Call(phoneId, calls[0].call.index), Incoming) then Some(calls[0].call)
    else FirstIncoming(calls[1..], phoneId)
  }

  /** The call answered is the first one listed that is incoming on the slot, if there is one. */
  lemma {:induction false} FirstIncomingIsFirst(calls: seq<CallView>, phoneId: int)
    ensures FirstIncoming(calls, phoneId).None? ==>
      forall i :: 0 <= i < |calls| ==> !(calls[i].state == Incoming && calls[i].call.phoneId == phoneId)
    ensures FirstIncoming(calls, phoneId).Some? ==> exists i ::
      && 0 <= i < |calls| && FirstIncoming(calls, phoneId).value == calls[i].call
      && calls[i].state == Incoming && calls[i].call.phoneId == phoneId
      && (forall j :: 0 <= j < i ==> !(calls[j].state == Incoming && calls[j].call.phoneId == phoneId))
    decreases |calls|
  {
    if calls != [] && !(calls[0].state == Incoming && calls[0].call.phoneId == phoneId) {
      var rest := calls[1..];
      FirstIncomingIsFirst(rest, phoneId);
      assert forall j :: 1 <= j < |calls| ==> calls[j] == rest[j - 1];
      if FirstIncoming(calls, phoneId).Some? {
        var i :| 0 <= i < |rest| && FirstIncoming(rest, phoneId).value == rest[i].call
              && rest[i].state == Incoming && rest[i].call.phoneId == phoneId
              && (forall j :: 0 <= j < i ==> !(rest[j].state == Incoming && rest[j].call.phoneId == phoneId));
        assert calls[i + 1] == rest[i];
      }
    }
  }

  function Answer(t: Tel, incoming: Option<Call>, listening: bool, accepted: bool): Tel {
    if incoming.None? then t
    else if accepted then t.(eCall := incoming, inProgress := true, listening := listening)
    else t.(eCall := None, inProgress := false)
  }

  function CallInfo(t: Tel, v: CallView): Tel {
    if v.state == Dialing && t.eCall.None? then t.(eCall := Some(v.call), inProgress := true)
    else if v.state == Ended && t.eCall == Some(v.call) then t.(eCall := None, inProgress := false)
    else t
  }

  function MakeResponse(t: Tel, success: bool, call: Call): Tel {
    if success then t.(eCall := Some(call)) else t.(inProgress := false)
  }

  function AnswerResponse(t: Tel, success: bool): Tel {
    if success then t else t.(eCall := None, inProgress := false, listening := false)
  }

  function MsdTransmission(t: Tel, phoneId: int, status: MsdStatus): Tel {
    t.(data := t.data[phoneId := t.Info(phoneId).(msdStatus := status)])
  }

  // ------------------------------------------------------------------ EcallScanFailHandler

  ghost function Pick<T>(s: set<T>): (x: T)
    requires s != {}
    ensures x in s
  {
    var x :| x in s;
    x
  }

  ghost function Least(s: set<int>): (k: int)
    requires s != {}
    ensures k in s && forall j :: j in s ==> k <= j
  {
    var x := Pick(s);
    var rest := s - {x};
    if rest == {} then
      assert s == {x};
      x
    else
      var k := Least(rest);
      assert s == rest + {x};
      if k < x then k else x
  }

  function Flagged(data: map<int, ECallInfo>): set<int> {
    set k | k in data && data[k].eCallNWScanFailed
  }

  /** The slot of the first entry, in key order, with a scan failure. */
  ghost function FirstFlagged(data: map<int, ECallInfo>): int {
    if Flagged(data) == {} then INVALID_SLOT_ID else Least(Flagged(data))
  }

  function ScanFail(t: Tel, phoneId: int, requested: bool): Tel {
    var t' := t.(asked := t.asked + [SlotQuery(requested)]);
    if requested then t'.(data := t.data[phoneId := t.Info(phoneId).(eCallNWScanFailed := true)])
    else t'.Erase(phoneId)
  }

  /** A call still in progress must end before the switch: it is hung up, if the modem lists it. */
  ghost predicate WantsHangUp(t: Tel, success: bool, highCapSlot: int) {
    success && FirstFlagged(t.data) != INVALID_SLOT_ID && highCapSlot != FirstFlagged(t.data)
    && t.inProgress && t.eCall.Some?
  }

  predicate ToHangUp(v: CallView, phoneId: int, callIndex: int) {
    v.call.phoneId == phoneId && v.state != Ended && (callIndex == -1 || callIndex == v.call.index)
  }

  function SetHighCapability(t: Tel, slot: int, requested: bool): Tel {
    var t' := t.(asked := t.asked + [SwitchTo(slot, requested)]);
    if requested then t' else t'.Erase(slot)
  }

  ghost function HighCapabilityResponse(t: Tel, success: bool, highCapSlot: int, requested: bool): Tel {
    var slot := FirstFlagged(t.data);
    if !success then (if t.inProgress && t.eCall.Some? then t.Erase(t.eCall.value.phoneId) else t)
    else if slot == INVALID_SLOT_ID then t
    else if highCapSlot == slot then t.Erase(slot)
    else
      var t' := t.(data := t.data[slot := t.data[slot].(triggerHighCapSwitch := true)]);
      if t.inProgress then t' else SetHighCapability(t', slot, requested)
  }

  predicate Due(info: ECallInfo) {
    info.triggerHighCapSwitch && info.msdStatus == MsdSuccess
  }

  /** One slot once a switch is complete: redialled with its own parameters and no listener if due. */
  function RedialIfDue(t: Tel, slot: int, accepted: set<int>): Tel
    requires slot in t.data
  {
    if Due(t.data[slot]) then Start(t, slot, t.data[slot].params, false, slot in accepted) else t
  }

  /** The given slots once a switch is complete, in key order. */
  ghost function RedialAll(t: Tel, slots: set<int>, accepted: set<int>): Tel
    requires slots <= t.data.Keys
    decreases slots
  {
    if slots == {} then t
    else RedialAll(RedialIfDue(t, Least(slots), accepted), slots - {Least(slots)}, accepted)
  }

  function HandlerCallInfo(t: Tel, v: CallView, requested: bool): Tel {
    var slot := v.call.phoneId;
    if v.state == Ended && !t.inProgress && slot in t.data && t.data[slot].triggerHighCapSwitch
    then SetHighCapability(t, slot, requested)
    else t
  }

  // ------------------------------------------------------------------ ThermClient

  /** What the client asks of the thermal manager, and the notices it gets from it: auto-shutdown has
      been enabled, or will be soon. */
  datatype ThermAction =
    | RegisterRequested
    | DeregisterRequested
    | DisableRequested(accepted: bool)
    | EnableRequested
    | ShutdownNotice

  datatype Therm = Therm(shutdownAllowed: bool, trace: seq<ThermAction>)

  function DisableShutdown(t: Therm, accepted: bool): Therm {
    var asked := t.trace + [RegisterRequested, DisableRequested(accepted)];
    Therm(!accepted, if accepted then asked else asked + [DeregisterRequested])
  }

  function EnableShutdown(t: Therm): Therm {
    Therm(true, t.trace + [EnableRequested, DeregisterRequested])
  }

  function ShutdownNoticed(t: Therm, accepted: bool): Therm {
    t.(trace := t.trace + if t.shutdownAllowed then [ShutdownNotice] else [ShutdownNotice, DisableRequested(accepted)])
  }

  // ------------------------------------------------------------------ ECallManager

  /** What the manager asks of the audio and the location client. */
  datatype ResourceAction = VoiceStarted(phoneId: int) | VoiceStopped | UpdatesStarted | UpdatesStopped

  /** What is held for a call: the thermal protection, phoneId_, locFixReceived_, and the voice
      session and location updates. */
  datatype Held = Held(therm: Therm, phoneId: int, locFixReceived: bool, resources: seq<ResourceAction>)

  const NO_PHONE := -1

  function Setup(h: Held, slot: int, disableAccepted: bool): Held {
    Held(DisableShutdown(h.therm, disableAccepted), h.phoneId, false,
         h.resources + [VoiceStarted(slot), UpdatesStarted])
  }

  function Cleanup(h: Held): Held {
    Held(EnableShutdown(h.therm), NO_PHONE, h.locFixReceived, h.resources + [VoiceStopped, UpdatesStopped])
  }

  /** What TelClient tells its call listener. */
  datatype Notice = NoNotice | CallConnect(phoneId: int) | CallDisconnect

  function Told(h: Held, n: Notice, disableAccepted: bool): Held {
    match n
    case NoNotice => h
    case CallConnect(slot) => Setup(h, slot, disableAccepted)
    case CallDisconnect => Cleanup(h)
  }

  function CallInfoNotice(t: Tel, v: CallView): Notice {
    if !t.listening then NoNotice
    else if v.state == Dialing && t.eCall.None? then CallConnect(v.call.phoneId)
    else if v.state == Ended && t.eCall == Some(v.call) then CallDisconnect
    else NoNotice
  }

  function FailureNotice(t: Tel, success: bool): Notice {
    if success || !t.listening then NoNotice else CallDisconnect
  }

  /** A location fix: during a call the modem's MSD is updated for phoneId_, otherwise the fix counts
      as received. */
  function UpdatedSlot(t: Tel, h: Held): Option<int> {
    if t.inProgress then Some(h.phoneId) else None
  }

  function Located(t: Tel, h: Held): Held {
    h.(locFixReceived := h.locFixReceived || !t.inProgress)
  }

  /** The telephony client and its manager together. */
  datatype Service = Service(tel: Tel, held: Held)

  /** triggerECall: refused during a call, undone when not accepted; fixed: whether a location fix
      came while it waited for one. */
  function Trigger(s: Service, slot: int, params: Params, fixed: bool,
                   disableAccepted: bool, makeAccepted: bool): Service
  {
    if s.tel.inProgress then s
    else
      var held := Setup(s.held, slot, disableAccepted).(phoneId := slot, locFixReceived := fixed);
      Service(Start(s.tel, slot, params, true, makeAccepted), if makeAccepted then held else Cleanup(held))
  }

  /** answerCall: refused and undone in the same way. */
  function AnswerIncoming(s: Service, slot: int, calls: seq<CallView>,
                          disableAccepted: bool, answerAccepted: bool): Service
  {
    if s.tel.inProgress then s
    else
      var incoming := FirstIncoming(calls, slot);
      var held := Setup(s.held, slot, disableAccepted).(phoneId := slot);
      Service(Answer(s.tel, incoming, true, answerAccepted),
              if incoming.Some? && answerAccepted then held else Cleanup(held))
  }
}
