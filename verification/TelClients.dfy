/** The eCall application's classes, proved against the functions of ECalls. */
module TelClients {
  import opened Wrappers
  import opened ECalls

  class ThermClient {
    var shutdownAllowed: bool
    var trace: seq<ThermAction>

    constructor ()
      ensures State() == Therm(true, [])
    {
      shutdownAllowed, trace := true, [];
    }

    function State(): Therm
      reads this
    {
      Therm(shutdownAllowed, trace)
    }

    method DisableAutoShutdown(accepted: bool)
      modifies this
      ensures State() == DisableShutdown(old(State()), accepted)
    {
      shutdownAllowed := false;
      trace := trace + [RegisterRequested];
      trace := trace + [DisableRequested(accepted)];
      if !accepted {
        shutdownAllowed := true;
        trace := trace + [DeregisterRequested];
      }
    }

    method EnableAutoShutdown()
      modifies this
      ensures State() == EnableShutdown(old(State()))
    {
      shutdownAllowed := true;
      trace := trace + [EnableRequested];
      trace := trace + [DeregisterRequested];
    }

    /** onShutdownEnabled and onImminentShutdownEnablement, which do the same. */
    method OnShutdownEnabled(accepted: bool)
      modifies this
      ensures State() == ShutdownNoticed(old(State()), accepted)
    {
      trace := trace + [ShutdownNotice];
      if !shutdownAllowed {
        trace := trace + [DisableRequested(accepted)];
      }
    }
  }

  class TelClient {
    var eCall: Option<Call>
    var eCallInprogress: bool
    var callListener: ECallManager?
    var eCallDataMap: map<int, ECallInfo>
    var made: seq<MakeCall>
    // What its scan-fail handler has asked of the multi-SIM manager.
    var asked: seq<SwitchRequest>

    constructor ()
      ensures State() == Tel(None, false, false, map[], [], [])
    {
      eCall, eCallInprogress, callListener, eCallDataMap, made, asked := None, false, null, map[], [], [];
    }

    function State(): Tel
      reads this
    {
      Tel(eCall, eCallInprogress, callListener != null, eCallDataMap, made, asked)
    }

    /** The objects a listener notification may change. */
    ghost function ListenerObjects(): set<object>
      reads this
    {
      if callListener == null then {} else {callListener, callListener.thermClient}
    }

    method StartECall(phoneId: int, msdData: Msd, category: int, variant: int, transmitMsd: bool,
                      listener: ECallManager?, accepted: bool) returns (success: bool)
      modifies this
      ensures var params := Params(category, Standard(variant), msdData, transmitMsd);
        State() == Start(old(State()), phoneId, params, listener != null, accepted)
      ensures success == accepted && callListener == if accepted then listener else old(callListener)
    {
      eCallInprogress := true;
      made := made + [MakeCall(phoneId, Params(category, Standard(variant), msdData, transmitMsd), accepted)];
      if accepted {
        eCallDataMap := eCallDataMap[phoneId :=
          ECallInfo(Params(category, Standard(variant), msdData, transmitMsd), false, false, MsdFailure)];
      } else {
        eCallInprogress := false;
        return false;
      }
      callListener := listener;
      return true;
    }

    method StartVoiceECall(phoneId: int, msdData: Msd, category: int, dialNumber: string, transmitMsd: bool,
                           listener: ECallManager?, accepted: bool) returns (success: bool)
      modifies this
      ensures var params := Params(category, Custom(dialNumber), msdData, transmitMsd);
        State() == Start(old(State()), phoneId, params, listener != null, accepted)
      ensures success == accepted && callListener == if accepted then listener else old(callListener)
    {
      eCallInprogress := true;
      made := made + [MakeCall(phoneId, Params(category, Custom(dialNumber), msdData, transmitMsd), accepted)];
      if accepted {
        eCallDataMap := eCallDataMap[phoneId :=
          ECallInfo(Params(category, Custom(dialNumber), msdData, transmitMsd), false, false, MsdFailure)];
      } else {
        eCallInprogress := false;
        return false;
      }
      callListener := listener;
      return true;
    }

    method AnswerCall(phoneId: int, calls: seq<CallView>, listener: ECallManager?, accepted: bool)
      returns (success: bool)
      modifies this
      ensures State() == Answer(old(State()), FirstIncoming(calls, phoneId), listener != null, accepted)
      ensures success == (FirstIncoming(calls, phoneId).Some? && accepted)
      ensures callListener == if success then listener else old(callListener)
    {
      var spCall: Option<Call> := None;
      var i := 0;
      while i < |calls| && spCall.None?
        modifies {}
        invariant i <= |calls|
        invariant FirstIncoming(calls, phoneId) == if spCall.Some? then spCall else FirstIncoming(calls[i..], phoneId)
        decreases |calls| - i, spCall.None?
      {
        if calls[i].state == Incoming && phoneId == calls[i].call.phoneId {
          spCall := Some(calls[i].call);
        } else {
          i := i + 1;
        }
      }
      if spCall.Some? {
        eCall := spCall;
        eCallInprogress := true;
        if !accepted {
          eCallInprogress := false;
          eCall := None;
          return false;
        }
      } else {
        return false;
      }
      callListener := listener;
      return true;
    }

    /** Hangs up the first call of the slot that has not ended and, if an index is given, has it. */
    method Hangup(phoneId: int, callIndex: int, calls: seq<CallView>, accepted: bool)
      returns (success: bool, target: Option<Call>)
      ensures success == (target.Some? && accepted)
      ensures target.None? ==> forall j :: 0 <= j < |calls| ==> !ToHangUp(calls[j], phoneId, callIndex)
      ensures target.Some? ==> exists i ::
        && 0 <= i < |calls| && calls[i].call == target.value && ToHangUp(calls[i], phoneId, callIndex)
        && (forall j :: 0 <= j < i ==> !ToHangUp(calls[j], phoneId, callIndex))
    {
      target := None;
      var i := 0;
      while i < |calls|
        invariant i <= |calls| && target.None?
        invariant forall j :: 0 <= j < i ==> !ToHangUp(calls[j], phoneId, callIndex)
      {
        if phoneId == calls[i].call.phoneId {
          if calls[i].state != Ended && (callIndex == -1 || callIndex == calls[i].call.index) {
            target := Some(calls[i].call);
            break;
          }
        }
        i := i + 1;
      }
      success := target.Some? && accepted;
    }

    method OnCallInfoChange(v: CallView, disableAccepted: bool)
      modifies this, ListenerObjects()
      ensures State() == CallInfo(old(State()), v) && callListener == old(callListener)
      ensures callListener != null ==>
        callListener.Resources()
        == Told(old(callListener.Resources()), CallInfoNotice(old(State()), v), disableAccepted)
    {
      if v.state == Dialing {
        if eCall == None {
          eCall := Some(v.call);
          eCallInprogress := true;
          if callListener != null {
            callListener.OnCallConnect(v.call.phoneId, disableAccepted);
          }
        }
      }
      if v.state == Ended {
        if eCall != None {
          if eCall.value.index == v.call.index && eCall.value.phoneId == v.call.phoneId {
            if callListener != null {
              callListener.OnCallDisconnect();
            }
            eCallInprogress := false;
            eCall := None;
          }
        }
      }
    }

    method MakeCallResponse(success: bool, call: Call)
      modifies this, ListenerObjects()
      ensures State() == MakeResponse(old(State()), success, call) && callListener == old(callListener)
      ensures callListener != null ==>
        callListener.Resources() == Told(old(callListener.Resources()), FailureNotice(old(State()), success), false)
    {
      if success {
        eCall := Some(call);
      } else {
        if callListener != null {
          callListener.OnCallDisconnect();
        }
        eCallInprogress := false;
      }
    }

    method AnswerCommandResponse(success: bool)
      modifies this, ListenerObjects()
      ensures State() == AnswerResponse(old(State()), success)
      ensures callListener == if success then old(callListener) else null
      ensures old(callListener) != null ==>
        old(callListener).Resources()
        == Told(old(callListener.Resources()), FailureNotice(old(State()), success), false)
    {
      if !success {
        if callListener != null {
          callListener.OnCallDisconnect();
          callListener := null;
        }
        eCallInprogress := false;
        eCall := None;
      }
    }

    method OnECallMsdTransmissionStatus(phoneId: int, status: MsdStatus)
      modifies this`eCallDataMap
      ensures State() == MsdTransmission(old(State()), phoneId, status)
    {
      var info := if phoneId in eCallDataMap then eCallDataMap[phoneId] else DEFAULT_INFO;
      eCallDataMap := eCallDataMap[phoneId := info.(msdStatus := status)];
    }
  }

  class EcallScanFailHandler {
    const telClient: TelClient

    constructor (telClient: TelClient)
      ensures this.telClient == telClient
    {
      this.telClient := telClient;
    }

    method OnEmergencyNetworkScanFail(phoneId: int, requested: bool)
      modifies telClient`eCallDataMap, telClient`asked
      ensures telClient.State() == ScanFail(old(telClient.State()), phoneId, requested)
    {
      var info := if phoneId in telClient.eCallDataMap then telClient.eCallDataMap[phoneId] else DEFAULT_INFO;
      telClient.eCallDataMap := telClient.eCallDataMap[phoneId := info.(eCallNWScanFailed := true)];
      telClient.asked := telClient.asked + [SlotQuery(requested)];
      if !requested {
        telClient.eCallDataMap := telClient.eCallDataMap - {phoneId};
      }
    }

    method RequestSwitch(phoneId: int, requested: bool) returns (success: bool)
      modifies telClient`eCallDataMap, telClient`asked
      ensures telClient.State() == SetHighCapability(old(telClient.State()), phoneId, requested)
      ensures success == requested
    {
      telClient.asked := telClient.asked + [SwitchTo(phoneId, requested)];
      if !requested {
        telClient.eCallDataMap := telClient.eCallDataMap - {phoneId};
      }
      success := requested;
    }

    /** The slot of the first entry with a scan failure, searching in key order. */
    method FindFlagged() returns (slot: int)
      ensures slot == FirstFlagged(telClient.eCallDataMap)
    {
      slot := INVALID_SLOT_ID;
      var data := telClient.eCallDataMap;
      var rest := data.Keys;
      while rest != {}
        invariant rest <= data.Keys && Flagged(data) <= rest
        invariant slot == INVALID_SLOT_ID
      {
        var k := NextKey(rest);
        if data[k].eCallNWScanFailed {
          slot := k;
          assert k in Flagged(data);
          return;
        }
        rest := rest - {k};
      }
    }

    static method NextKey(rest: set<int>) returns (k: int)
      requires rest != {}
      ensures k == Least(rest) && k in rest && forall j :: j in rest ==> k <= j
    {
      assert Least(rest) in rest;
      k :| k in rest && forall j :: j in rest ==> k <= j;
    }

    /** hungUp: the call whose hang-up is requested; the outcome of the request changes nothing here. */
    method RequestHighCapabilityResponse(highCapSlotId: int, success: bool, calls: seq<CallView>, hangupAccepted: bool,
                                         requested: bool) returns (hungUp: Option<Call>)
      modifies telClient`eCallDataMap, telClient`asked
      ensures telClient.State() == HighCapabilityResponse(old(telClient.State()), success, highCapSlotId, requested)
      ensures hungUp.Some? ==> WantsHangUp(old(telClient.State()), success, highCapSlotId)
      ensures WantsHangUp(old(telClient.State()), success, highCapSlotId) ==>
        var call := telClient.eCall.value;
        && (hungUp.None? ==> forall i :: 0 <= i < |calls| ==> !ToHangUp(calls[i], call.phoneId, call.index))
        && (hungUp.Some? ==> exists i ::
              && 0 <= i < |calls| && calls[i].call == hungUp.value
              && ToHangUp(calls[i], call.phoneId, call.index))
    {
      hungUp := None;
      if success {
        var slot := FindFlagged();
        if slot != INVALID_SLOT_ID {
          if highCapSlotId != slot {
            telClient.eCallDataMap :=
              telClient.eCallDataMap[slot := telClient.eCallDataMap[slot].(triggerHighCapSwitch := true)];
            if telClient.eCallInprogress {
              if telClient.eCall.Some? {
                var call := telClient.eCall.value;
                var _, target := telClient.Hangup(call.phoneId, call.index, calls, hangupAccepted);
                hungUp := target;
              }
            } else {
              var _ := RequestSwitch(slot, requested);
            }
          } else {
            telClient.eCallDataMap := telClient.eCallDataMap - {slot};
          }
        }
      } else {
        if telClient.eCallInprogress {
          if telClient.eCall.Some? {
            telClient.eCallDataMap := telClient.eCallDataMap - {telClient.eCall.value.phoneId};
          }
        }
      }
    }

    /** On a completed switch, redial every slot that is due, in key order. */
    method SetHighCapabilityResponse(success: bool, accepted: set<int>)
      modifies telClient
      ensures telClient.State()
           == if success then RedialAll(old(telClient.State()), old(telClient.eCallDataMap.Keys), accepted)
              else old(telClient.State())
    {
      if success {
        var rest := telClient.eCallDataMap.Keys;
        while rest != {}
          invariant rest <= telClient.eCallDataMap.Keys
          invariant RedialAll(telClient.State(), rest, accepted)
                 == RedialAll(old(telClient.State()), old(telClient.eCallDataMap.Keys), accepted)
        {
          var k := NextKey(rest);
          var info := telClient.eCallDataMap[k];
          if info.triggerHighCapSwitch && info.msdStatus == MsdSuccess {
            var _ := Redial(k, info, k in accepted);
          }
          rest := rest - {k};
        }
      }
    }

    method Redial(slot: int, info: ECallInfo, accepted: bool) returns (success: bool)
      modifies telClient
      ensures telClient.State() == Start(old(telClient.State()), slot, info.params, false, accepted)
    {
      var p := info.params;
      match p.dial
      case Custom(number) =>
        success := telClient.StartVoiceECall(slot, p.msdData, p.category, number, p.transmitMsd, null, accepted);
      case Standard(variant) =>
        success := telClient.StartECall(slot, p.msdData, p.category, variant, p.transmitMsd, null, accepted);
    }

    method OnCallInfoChange(v: CallView, requested: bool)
      modifies telClient`eCallDataMap, telClient`asked
      ensures telClient.State() == HandlerCallInfo(old(telClient.State()), v, requested)
    {
      if v.state == Ended {
        if !telClient.eCallInprogress {
          var phoneId := v.call.phoneId;
          if phoneId in telClient.eCallDataMap {
            if telClient.eCallDataMap[phoneId].triggerHighCapSwitch {
              var success := RequestSwitch(phoneId, requested);
              if !success {
                telClient.eCallDataMap := telClient.eCallDataMap - {phoneId};
              }
            }
          }
        }
      }
    }
  }

  class ECallManager {
    const telClient: TelClient
    const thermClient: ThermClient
    var phoneId: int
    var locFixReceived: bool
    var msdData: Msd
    var resources: seq<ResourceAction>

    constructor (telClient: TelClient, thermClient: ThermClient)
      ensures this.telClient == telClient && this.thermClient == thermClient
      ensures phoneId == NO_PHONE && !locFixReceived && resources == []
    {
      this.telClient, this.thermClient := telClient, thermClient;
      phoneId, locFixReceived, msdData, resources := NO_PHONE, false, [], [];
    }

    function Resources(): Held
      reads this, thermClient
    {
      Held(thermClient.State(), phoneId, locFixReceived, resources)
    }

    function State(): Service
      reads this, telClient, thermClient
    {
      Service(telClient.State(), Resources())
    }

    method SetupResources(slot: int, disableAccepted: bool)
      modifies this`locFixReceived, this`resources, thermClient
      ensures Resources() == Setup(old(Resources()), slot, disableAccepted)
    {
      resources := resources + [VoiceStarted(slot)];
      locFixReceived := false;
      resources := resources + [UpdatesStarted];
      thermClient.DisableAutoShutdown(disableAccepted);
    }

    method CleanupResources()
      modifies this`phoneId, this`resources, thermClient
      ensures Resources() == Cleanup(old(Resources()))
    {
      resources := resources + [VoiceStopped];
      resources := resources + [UpdatesStopped];
      thermClient.EnableAutoShutdown();
      phoneId := NO_PHONE;
    }

    method OnCallConnect(slot: int, disableAccepted: bool)
      modifies this`locFixReceived, this`resources, thermClient
      ensures Resources() == Setup(old(Resources()), slot, disableAccepted)
    {
      SetupResources(slot, disableAccepted);
    }

    method OnCallDisconnect()
      modifies this`phoneId, this`resources, thermClient
      ensures Resources() == Cleanup(old(Resources()))
    {
      CleanupResources();
    }

    /** located: the MSD with the new location in it. */
    method OnLocationUpdate(located: Msd) returns (updatedPhone: Option<int>)
      modifies this`msdData, this`locFixReceived
      ensures msdData == located
      ensures updatedPhone == UpdatedSlot(telClient.State(), old(Resources()))
      ensures Resources() == Located(telClient.State(), old(Resources()))
    {
      msdData := located;
      if telClient.eCallInprogress {
        updatedPhone := Some(phoneId);
      } else {
        updatedPhone := None;
        locFixReceived := true;
      }
    }

    /** Both triggerECall overloads. fix: the MSD with a location fix that arrives in time, if one does,
        while the call waits for it because its MSD is to be transmitted. */
    method TriggerECall(slot: int, category: int, dial: Dial, transmitMsd: bool, fix: Option<Msd>,
                        disableAccepted: bool, makeAccepted: bool) returns (success: bool)
      modifies this, telClient, thermClient
      ensures State() == Trigger(old(State()), slot, Params(category, dial, msdData, transmitMsd),
                                 transmitMsd && fix.Some?, disableAccepted, makeAccepted)
      ensures msdData == if !old(telClient.eCallInprogress) && transmitMsd && fix.Some? then fix.value else old(msdData)
      ensures success == (!old(telClient.eCallInprogress) && makeAccepted)
      ensures telClient.callListener == if success then this else old(telClient.callListener)
    {
      if telClient.eCallInprogress {
        return false;
      }
      phoneId := slot;
      SetupResources(slot, disableAccepted);
      if transmitMsd && !locFixReceived {
        if fix.Some? {
          var _ := OnLocationUpdate(fix.value);
        }
      }
      match dial {
        case Standard(variant) =>
          success := telClient.StartECall(slot, msdData, category, variant, transmitMsd, this, makeAccepted);
        case Custom(number) =>
          success := telClient.StartVoiceECall(slot, msdData, category, number, transmitMsd, this, makeAccepted);
      }
      if !success {
        CleanupResources();
      }
    }

    method AnswerCall(slot: int, calls: seq<CallView>, disableAccepted: bool, answerAccepted: bool)
      returns (success: bool)
      modifies this, telClient, thermClient
      ensures State() == AnswerIncoming(old(State()), slot, calls, disableAccepted, answerAccepted)
      ensures msdData == old(msdData)
      ensures success == (!old(telClient.eCallInprogress) && FirstIncoming(calls, slot).Some? && answerAccepted)
      ensures telClient.callListener == if success then this else old(telClient.callListener)
    {
      if telClient.eCallInprogress {
        return false;
      }
      phoneId := slot;
      SetupResources(slot, disableAccepted);
      success := telClient.AnswerCall(slot, calls, this, answerAccepted);
      if !success {
        CleanupResources();
      }
    }
  }
}
