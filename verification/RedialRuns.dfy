/** Runs of TelClient and EcallScanFailHandler on a multi-SIM device, with every interleaving of user
    requests, modem callbacks and handler callbacks. */
module RedialRuns {
  import opened Wrappers
  import opened ECalls

  datatype Event =
    | UserStart(slot: int, params: Params, listening: bool, accepted: bool)
    | UserAnswer(incoming: Option<Call>, listening: bool, accepted: bool)
    | CallChanged(v: CallView)
    | Made(success: bool, call: Call)
    | Answered(success: bool)
    | MsdChanged(slot: int, status: MsdStatus)
    | ScanFailed(slot: int, requested: bool)
    | HighCapability(success: bool, highCapSlot: int, requested: bool)
    | CallChangedAtHandler(v: CallView, requested: bool)
    | SwitchCompleted(success: bool, on: set<int>)

  ghost function TelStep(t: Tel, e: Event): Tel {
    match e
    case UserStart(slot, params, listening, accepted) => Start(t, slot, params, listening, accepted)
    case UserAnswer(incoming, listening, accepted) => Answer(t, incoming, listening, accepted)
    case CallChanged(v) => CallInfo(t, v)
    case Made(success, call) => MakeResponse(t, success, call)
    case Answered(success) => AnswerResponse(t, success)
    case MsdChanged(slot, status) => MsdTransmission(t, slot, status)
    case ScanFailed(slot, requested) => ScanFail(t, slot, requested)
    case HighCapability(success, highCapSlot, requested) => HighCapabilityResponse(t, success, highCapSlot, requested)
    case CallChangedAtHandler(v, requested) => HandlerCallInfo(t, v, requested)
    case SwitchCompleted(success, on) => if success then RedialAll(t, t.data.Keys, on) else t
  }

  /** With the state: the scan-fail indications and successful redials so far, and for each slot the
      parameters of the user's last successful start whose entry has not been erased since. */
  datatype History = History(tel: Tel, indications: nat, redials: nat, user: map<int, Params>)

  function AcceptedCalls(calls: seq<MakeCall>): nat {
    if calls == [] then 0 else (if calls[0].accepted then 1 else 0) + AcceptedCalls(calls[1..])
  }

  /** The redials the handler makes in one event. */
  ghost function Redials(t: Tel, e: Event): seq<MakeCall> {
    if e.SwitchCompleted? && |t.made| <= |TelStep(t, e).made| then TelStep(t, e).made[|t.made|..] else []
  }

  ghost function Step(h: History, e: Event): History {
    var t := TelStep(h.tel, e);
    var kept := map k | k in h.user && k in t.data :: h.user[k];
    History(t,
            h.indications + (if e.ScanFailed? then 1 else 0),
            h.redials + AcceptedCalls(Redials(h.tel, e)),
            if e.UserStart? && e.accepted then kept[e.slot := e.params] else kept)
  }

  const START := History(Tel(None, false, false, map[], [], []), 0, 0, map[])

  ghost function After(h: History, es: seq<Event>): History
    decreases |es|
  {
    if es == [] then h else After(Step(h, es[0]), es[1..])
  }

  // ------------------------------------------------------------------ invariants

  /** A switch is only ever wanted for a slot whose scan has failed. */
  predicate SwitchesSound(data: map<int, ECallInfo>) {
    forall k :: k in data && data[k].triggerHighCapSwitch ==> data[k].eCallNWScanFailed
  }

  /** What a redial of a slot would dial: the call the user started there, or the default one. */
  function Expected(h: History, slot: int): Params {
    if slot in h.user then h.user[slot] else DEFAULT_INFO.params
  }

  predicate UserParamsKept(h: History) {
    && h.user.Keys <= h.tel.data.Keys
    && forall k :: k in h.tel.data ==> h.tel.data[k].params == Expected(h, k)
  }

  predicate Invariant(h: History) {
    && SwitchesSound(h.tel.data)
    && h.redials + |Flagged(h.tel.data)| <= h.indications
    && UserParamsKept(h)
  }

  lemma {:induction false} AcceptedCallsConcat(a: seq<MakeCall>, b: seq<MakeCall>)
    ensures AcceptedCalls(a + b) == AcceptedCalls(a) + AcceptedCalls(b)
  {
    if a == [] {
      assert a + b == b;
    } else {
      assert (a + b)[1..] == a[1..] + b;
      AcceptedCallsConcat(a[1..], b);
    }
  }

  /** What redialling the given slots makes of the state: each successful redial clears one flag,
      uses its entry's own parameters and leaves them as they are. */
  ghost predicate RedialledSoundly(t: Tel, t': Tel) {
    && t'.data.Keys == t.data.Keys
    && (forall k :: k in t.data ==> t'.data[k].params == t.data[k].params)
    && SwitchesSound(t'.data)
    && t.made <= t'.made
    && |Flagged(t'.data)| + AcceptedCalls(t'.made[|t.made|..]) <= |Flagged(t.data)|
    && (forall c :: c in t'.made[|t.made|..] ==> c.slot in t.data && c.params == t.data[c.slot].params)
  }

  lemma OneRedialSound(t: Tel, k: int, accepted: set<int>)
    requires SwitchesSound(t.data) && k in t.data
    ensures RedialledSoundly(t, RedialIfDue(t, k, accepted))
  {
    var t' := RedialIfDue(t, k, accepted);
    if t'.data == t.data {
      assert t'.made[|t.made|..] == [] || t'.made[|t.made|..] == [MakeCall(k, t.data[k].params, false)];
    } else {
      assert t'.made[|t.made|..] == [MakeCall(k, t.data[k].params, true)];
      assert Flagged(t'.data) == Flagged(t.data) - {k} && k in Flagged(t.data);
    }
  }

  lemma RedialsCompose(t: Tel, t1: Tel, t2: Tel)
    requires RedialledSoundly(t, t1) && RedialledSoundly(t1, t2)
    ensures RedialledSoundly(t, t2)
  {
    var first, second := t1.made[|t.made|..], t2.made[|t1.made|..];
    assert t2.made[|t.made|..] == first + second;
    AcceptedCallsConcat(first, second);
  }

  lemma {:induction false} RedialAllSound(t: Tel, slots: set<int>, accepted: set<int>)
    requires SwitchesSound(t.data) && slots <= t.data.Keys
    ensures RedialledSoundly(t, RedialAll(t, slots, accepted))
    decreases slots
  {
    if slots == {} {
      assert t.made[|t.made|..] == [];
    } else {
      var k := Least(slots);
      var t1 := RedialIfDue(t, k, accepted);
      OneRedialSound(t, k, accepted);
      RedialAllSound(t1, slots - {k}, accepted);
      RedialsCompose(t, t1, RedialAll(t1, slots - {k}, accepted));
    }
  }

  lemma OtherEventsKeepFlags(t: Tel, e: Event)
    requires SwitchesSound(t.data) && !e.SwitchCompleted?
    ensures SwitchesSound(TelStep(t, e).data)
    ensures Flagged(TelStep(t, e).data) <= Flagged(t.data) + if e.ScanFailed? then {e.slot} else {}
  {}

  lemma OtherEventsKeepParameters(t: Tel, e: Event)
    requires !e.SwitchCompleted?
    ensures forall k :: k in TelStep(t, e).data && !(e.UserStart? && e.accepted && k == e.slot)
              ==> TelStep(t, e).data[k].params == t.Info(k).params
    ensures e.UserStart? && e.accepted ==> e.slot in TelStep(t, e).data && TelStep(t, e).data[e.slot].params == e.params
  {}

  /** Only a scan-fail indication adds a flag, no event changes the parameters of an entry that is
      there before and after it, except a start by the user, and other new entries have the default
      ones. */
  lemma OtherEvents(t: Tel, e: Event)
    requires SwitchesSound(t.data) && !e.SwitchCompleted?
    ensures SwitchesSound(TelStep(t, e).data)
    ensures Flagged(TelStep(t, e).data) <= Flagged(t.data) + if e.ScanFailed? then {e.slot} else {}
    ensures forall k :: k in t.data && k in TelStep(t, e).data && !(e.UserStart? && e.accepted && k == e.slot)
              ==> TelStep(t, e).data[k].params == t.data[k].params
    ensures forall k :: k !in t.data && k in TelStep(t, e).data && !(e.UserStart? && e.accepted && k == e.slot)
              ==> TelStep(t, e).data[k].params == DEFAULT_INFO.params
    ensures e.UserStart? && e.accepted ==> e.slot in TelStep(t, e).data && TelStep(t, e).data[e.slot].params == e.params
  {
    OtherEventsKeepFlags(t, e);
    OtherEventsKeepParameters(t, e);
  }

  lemma SubsetSize<T>(a: set<T>, b: set<T>)
    requires a <= b
    ensures |a| <= |b|
  {
    assert b == a + (b - a);
  }

  lemma SwitchCompletedKeeps(h: History, success: bool, on: set<int>)
    requires Invariant(h)
    ensures Invariant(Step(h, SwitchCompleted(success, on)))
  {
    if success {
      RedialAllSound(h.tel, h.tel.data.Keys, on);
    }
  }

  lemma OtherEventsKeep(h: History, e: Event)
    requires Invariant(h) && !e.SwitchCompleted?
    ensures Invariant(Step(h, e))
  {
    OtherEvents(h.tel, e);
    SubsetSize(Flagged(TelStep(h.tel, e).data), Flagged(h.tel.data) + if e.ScanFailed? then {e.slot} else {});
  }

  lemma InvariantStep(h: History, e: Event)
    requires Invariant(h)
    ensures Invariant(Step(h, e))
  {
    if e.SwitchCompleted? {
      SwitchCompletedKeeps(h, e.success, e.on);
    } else {
      OtherEventsKeep(h, e);
    }
  }

  lemma {:induction false} InvariantRun(h: History, es: seq<Event>)
    requires Invariant(h)
    ensures Invariant(After(h, es))
    decreases |es|
  {
    if es != [] {
      InvariantStep(h, es[0]);
      InvariantRun(Step(h, es[0]), es[1..]);
    }
  }

  /** In every run the successful redials and the slots still flagged together never exceed the
      scan-fail indications received: the handler cannot go on redialling by itself. */
  lemma RedialsBounded(es: seq<Event>)
    ensures var h := After(START, es); h.redials + |Flagged(h.tel.data)| <= h.indications
  {
    InvariantRun(START, es);
  }

  function RedialOf(t: Tel, slot: int, accepted: set<int>): MakeCall {
    MakeCall(slot, t.Info(slot).params, slot in accepted)
  }

  /** The calls are redials of due slots, in key order and so one for each slot at most. */
  predicate OnlyTheDue(t: Tel, slots: set<int>, accepted: set<int>, calls: seq<MakeCall>) {
    && (forall i :: 0 <= i < |calls| ==>
          calls[i].slot in slots && Due(t.Info(calls[i].slot)) && calls[i] == RedialOf(t, calls[i].slot, accepted))
    && (forall i, j :: 0 <= i < j < |calls| ==> calls[i].slot < calls[j].slot)
  }

  predicate AllTheDue(t: Tel, slots: set<int>, accepted: set<int>, calls: seq<MakeCall>) {
    forall k :: k in slots && Due(t.Info(k)) ==> RedialOf(t, k, accepted) in calls
  }

  lemma OnlyTheDueCons(t: Tel, slots: set<int>, accepted: set<int>, k: int, calls: seq<MakeCall>)
    requires k in slots && (forall j :: j in slots ==> k <= j) && Due(t.Info(k))
    requires OnlyTheDue(t, slots - {k}, accepted, calls)
    ensures OnlyTheDue(t, slots, accepted, [RedialOf(t, k, accepted)] + calls)
  {
    var all := [RedialOf(t, k, accepted)] + calls;
    assert forall i :: 0 < i < |all| ==> all[i] == calls[i - 1];
  }

  /** Which calls are due in some slots is a matter of their entries only. */
  lemma DueElsewhere(t: Tel, t1: Tel, slots: set<int>, accepted: set<int>, calls: seq<MakeCall>)
    requires forall k :: k in slots ==> t1.Info(k) == t.Info(k)
    ensures OnlyTheDue(t, slots, accepted, calls) == OnlyTheDue(t1, slots, accepted, calls)
    ensures AllTheDue(t, slots, accepted, calls) == AllTheDue(t1, slots, accepted, calls)
  {
    assert forall k :: k in slots ==> RedialOf(t1, k, accepted) == RedialOf(t, k, accepted);
  }

  /** What was dialled from t to t' are exactly the due ones of the slots. */
  predicate DialledTheDue(t: Tel, slots: set<int>, accepted: set<int>, t': Tel) {
    && t.made <= t'.made
    && OnlyTheDue(t, slots, accepted, t'.made[|t.made|..])
    && AllTheDue(t, slots, accepted, t'.made[|t.made|..])
  }

  lemma DialledTheDueCons(t: Tel, slots: set<int>, accepted: set<int>, k: int, t': Tel)
    requires k in slots && (forall j :: j in slots ==> k <= j) && k in t.data
    requires DialledTheDue(RedialIfDue(t, k, accepted), slots - {k}, accepted, t')
    ensures DialledTheDue(t, slots, accepted, t')
  {
    var t1 := RedialIfDue(t, k, accepted);
    var calls := t'.made[|t1.made|..];
    DueElsewhere(t, t1, slots - {k}, accepted, calls);
    if Due(t.data[k]) {
      OnlyTheDueCons(t, slots, accepted, k, calls);
      assert t'.made[|t.made|..] == [RedialOf(t, k, accepted)] + calls;
    } else {
      assert t1 == t;
    }
  }

  lemma {:induction false} RedialAllDialsTheDue(t: Tel, slots: set<int>, accepted: set<int>)
    requires slots <= t.data.Keys
    ensures DialledTheDue(t, slots, accepted, RedialAll(t, slots, accepted))
    decreases slots
  {
    if slots != {} {
      var k := Least(slots);
      var t1 := RedialIfDue(t, k, accepted);
      RedialAllDialsTheDue(t1, slots - {k}, accepted);
      DialledTheDueCons(t, slots, accepted, k, RedialAll(t1, slots - {k}, accepted));
    }
  }

  /** A successful redial leaves nobody to be told of the call; redialling touches no call that is held. */
  lemma {:induction false} RedialsHaveNoListener(t: Tel, slots: set<int>, accepted: set<int>)
    requires slots <= t.data.Keys
    ensures var t' := RedialAll(t, slots, accepted);
      && (t'.listening <==> t.listening && forall k :: k in slots && k in accepted ==> !Due(t.data[k]))
      && t'.eCall == t.eCall
    decreases slots
  {
    if slots != {} {
      var k := Least(slots);
      RedialsHaveNoListener(RedialIfDue(t, k, accepted), slots - {k}, accepted);
    }
  }

  /** A completed switch redials exactly the due slots, each with the parameters expected there. */
  predicate RedialsAsExpected(h: History, accepted: set<int>, calls: seq<MakeCall>) {
    && OnlyTheDue(h.tel, h.tel.data.Keys, accepted, calls) && AllTheDue(h.tel, h.tel.data.Keys, accepted, calls)
    && forall i :: 0 <= i < |calls| ==> calls[i].params == Expected(h, calls[i].slot)
  }

  lemma SwitchRedialsAsExpected(h: History, accepted: set<int>)
    requires UserParamsKept(h)
    ensures RedialsAsExpected(h, accepted, Redials(h.tel, SwitchCompleted(true, accepted)))
  {
    RedialAllDialsTheDue(h.tel, h.tel.data.Keys, accepted);
  }

  /** After every run a completed switch redials exactly the slots where a switch was wanted and the
      MSD status reads as success, each once; and what it dials there is exactly what the user's last
      successful start on the slot asked for, if its entry was not erased since, and otherwise a
      standard eCall with default parameters. */
  lemma RedialsKeepParameters(es: seq<Event>, accepted: set<int>)
    ensures var h := After(START, es); RedialsAsExpected(h, accepted, Redials(h.tel, SwitchCompleted(true, accepted)))
  {
    InvariantRun(START, es);
    SwitchRedialsAsExpected(After(START, es), accepted);
  }

  /** An entry that no start wrote can be redialled too: on a device that has made no call, a scan
      failure on a slot makes an entry whose MSD status reads as success, and once the switch
      completes the application dials an eCall that nobody asked for. */
  lemma UnrequestedRedial(t: Tel, slot: int, highCapSlot: int)
    requires t.data == map[] && !t.inProgress && slot != INVALID_SLOT_ID && slot != highCapSlot
    ensures var t1 := TelStep(t, ScanFailed(slot, true));
            var t2 := TelStep(t1, HighCapability(true, highCapSlot, true));
            Redials(t2, SwitchCompleted(true, {slot})) == [MakeCall(slot, DEFAULT_INFO.params, true)]
  {
    var t1 := TelStep(t, ScanFailed(slot, true));
    assert Flagged(t1.data) == {slot};
    var t2 := TelStep(t1, HighCapability(true, highCapSlot, true));
    assert t2.data.Keys == {slot} && Due(t2.data[slot]) && t2.data[slot].params == DEFAULT_INFO.params;
    assert RedialAll(t2, {slot}, {slot}) == RedialIfDue(t2, slot, {slot}) by {
      assert Least({slot}) == slot && {slot} - {slot} == {};
    }
  }

  // ------------------------------------------------------------------ what each event does to a slot

  /** Every other slot's entry is as it was. */
  ghost predicate OthersKept(t: Tel, t': Tel, slot: int) {
    forall k :: k != slot ==> (k in t.data <==> k in t'.data) && (k in t.data ==> t'.data[k] == t.data[k])
  }

  /** The MSD status reported for a slot is stored there, and nothing else changes. */
  lemma MsdExactly(t: Tel, slot: int, status: MsdStatus)
    ensures var t' := TelStep(t, MsdChanged(slot, status));
      && slot in t'.data && t'.data[slot].msdStatus == status
      && t'.data[slot].(msdStatus := MsdFailure) == t.Info(slot).(msdStatus := MsdFailure)
      && OthersKept(t, t', slot) && t'.(data := t.data) == t
  {}

  /** A scan failure asks for the high-capability slot and flags its own; if the request is not accepted
      the slot's entry is gone. */
  lemma ScanFailExactly(t: Tel, slot: int, requested: bool)
    ensures var t' := TelStep(t, ScanFailed(slot, requested));
      && t'.asked == t.asked + [SlotQuery(requested)] && OthersKept(t, t', slot)
      && t'.(data := t.data, asked := t.asked) == t
      && (slot in t'.data <==> requested)
      && (requested ==>
            && t'.data[slot].eCallNWScanFailed && t'.data[slot].params == t.Info(slot).params
            && t'.data[slot].triggerHighCapSwitch == t.Info(slot).triggerHighCapSwitch
            && t'.data[slot].msdStatus == t.Info(slot).msdStatus)
  {}

  /** What a response about the high-capability slot does for the least slot k whose scan failed. If the
      slots are the same, k's entry is gone. If not, k is flagged for a switch, whether or not a call is in
      progress; the switch is asked for at once only if none is, and if that is not accepted the entry is
      gone too. */
  lemma HighCapabilityExactly(t: Tel, k: int, highCapSlot: int, requested: bool)
    requires k in t.data && t.data[k].eCallNWScanFailed && k != INVALID_SLOT_ID
    requires forall j :: j in t.data && t.data[j].eCallNWScanFailed ==> k <= j
    ensures var t' := TelStep(t, HighCapability(true, highCapSlot, requested));
      && OthersKept(t, t', k) && t'.(data := t.data, asked := t.asked) == t
      && (k in t'.data <==> highCapSlot != k && (t.inProgress || requested))
      && (k in t'.data ==>
            && t'.data[k].triggerHighCapSwitch && t'.data[k].eCallNWScanFailed
            && t'.data[k].params == t.data[k].params && t'.data[k].msdStatus == t.data[k].msdStatus)
      && t'.asked == t.asked + if highCapSlot != k && !t.inProgress then [SwitchTo(k, requested)] else []
  {
    LeastFlagged(t.data, k);
    assert t.asked + [] == t.asked;
  }

  lemma LeastFlagged(data: map<int, ECallInfo>, k: int)
    requires k in data && data[k].eCallNWScanFailed
    requires forall j :: j in data && data[j].eCallNWScanFailed ==> k <= j
    ensures FirstFlagged(data) == k
  {
    assert k in Flagged(data);
    assert Least(Flagged(data)) in Flagged(data);
  }

  /** When no slot's scan has failed, a response does nothing; when the query itself failed, only the slot
      of a call in progress loses its entry. */
  lemma HighCapabilityOtherwise(t: Tel, highCapSlot: int, requested: bool)
    ensures (forall j :: j in t.data ==> !t.data[j].eCallNWScanFailed) ==>
      TelStep(t, HighCapability(true, highCapSlot, requested)) == t
    ensures var t' := TelStep(t, HighCapability(false, highCapSlot, requested));
      && t'.(data := t.data) == t
      && forall k :: k in t'.data <==> k in t.data && !(t.inProgress && t.eCall.Some? && t.eCall.value.phoneId == k)
    ensures forall k :: k in TelStep(t, HighCapability(false, highCapSlot, requested)).data ==>
      TelStep(t, HighCapability(false, highCapSlot, requested)).data[k] == t.data[k]
  {}

  /** The end of a call asks for the switch exactly if no call is in progress and one is wanted for the
      slot; if that is not accepted the slot's entry is gone. */
  lemma CallEndExactly(t: Tel, v: CallView, requested: bool)
    ensures var t' := TelStep(t, CallChangedAtHandler(v, requested)); var slot := v.call.phoneId;
      var due := v.state == Ended && !t.inProgress && slot in t.data && t.data[slot].triggerHighCapSwitch;
      && t'.asked == t.asked + (if due then [SwitchTo(slot, requested)] else [])
      && OthersKept(t, t', slot) && t'.(data := t.data, asked := t.asked) == t
      && (slot in t'.data <==> slot in t.data && !(due && !requested))
      && (slot in t'.data ==> t'.data[slot] == t.data[slot])
  {
    assert t.asked + [] == t.asked;
  }

  lemma {:induction false} RedialAllAsksNothing(t: Tel, slots: set<int>, accepted: set<int>)
    requires slots <= t.data.Keys
    ensures RedialAll(t, slots, accepted).asked == t.asked
    decreases slots
  {
    if slots != {} {
      RedialAllAsksNothing(RedialIfDue(t, Least(slots), accepted), slots - {Least(slots)}, accepted);
    }
  }

  lemma AskedSoundly(t: Tel, e: Event)
    requires SwitchesSound(t.data)
    ensures var t' := TelStep(t, e);
      && t.asked <= t'.asked
      && forall i :: |t.asked| <= i < |t'.asked| && t'.asked[i].SwitchTo? ==>
           !t.inProgress && t'.asked[i].slot in t.data && t.data[t'.asked[i].slot].eCallNWScanFailed
  {
    match e
    case SwitchCompleted(success, on) => RedialAllAsksNothing(t, t.data.Keys, on);
    case CallChangedAtHandler(v, requested) => CallEndExactly(t, v, requested);
    case HighCapability(success, highCapSlot, requested) =>
      if success && FirstFlagged(t.data) != INVALID_SLOT_ID {
        var k := FirstFlagged(t.data);
        assert k in Flagged(t.data) && forall j :: j in t.data && t.data[j].eCallNWScanFailed ==> j in Flagged(t.data);
        HighCapabilityExactly(t, k, highCapSlot, requested);
      }
    case _ =>
  }

  /** In every run a switch is only ever asked for with no call in progress, and for a slot whose scan has
      failed. */
  lemma SwitchesAskedSoundly(es: seq<Event>, e: Event)
    ensures var t := After(START, es).tel; var t' := TelStep(t, e);
      && t.asked <= t'.asked
      && forall i :: |t.asked| <= i < |t'.asked| && t'.asked[i].SwitchTo? ==>
           !t.inProgress && t'.asked[i].slot in t.data && t.data[t'.asked[i].slot].eCallNWScanFailed
  {
    InvariantRun(START, es);
    AskedSoundly(After(START, es).tel, e);
  }

  // ------------------------------------------------------------------ recovery

  /** An eCall of the user on a slot, up to the scan failure: it dials, and its MSD status may be reported. */
  ghost function UntilScanFailed(t: Tel, slot: int, params: Params, listening: bool, call: Call,
                                 status: Option<MsdStatus>): Tel
  {
    var dialling := TelStep(TelStep(t, UserStart(slot, params, listening, true)), CallChanged(CallView(call, Dialing)));
    var reported := if status.Some? then TelStep(dialling, MsdChanged(slot, status.value)) else dialling;
    TelStep(reported, ScanFailed(slot, true))
  }

  /** The call ends, and both callbacks hear of it. */
  ghost function CallEnds(t: Tel, call: Call): Tel {
    TelStep(TelStep(t, CallChanged(CallView(call, Ended))), CallChangedAtHandler(CallView(call, Ended), true))
  }

  /** The response that high capability is elsewhere comes before the end of the call, or after it. */
  ghost function Recovering(t: Tel, call: Call, highCapSlot: int, early: bool): Tel {
    if early then CallEnds(TelStep(t, HighCapability(true, highCapSlot, true)), call)
    else TelStep(CallEnds(t, call), HighCapability(true, highCapSlot, true))
  }

  lemma ScanFailedState(t: Tel, slot: int, params: Params, listening: bool, call: Call, status: Option<MsdStatus>)
    requires t.eCall.None? && call.phoneId == slot
    ensures var t' := UntilScanFailed(t, slot, params, listening, call, status);
      && t'.data == t.data[slot :=
           ECallInfo(params, true, false, if status.Some? then status.value else MsdFailure)]
      && t'.eCall == Some(call) && t'.inProgress && t'.asked == t.asked + [SlotQuery(true)]
  {}

  lemma RecoveringState(t: Tel, call: Call, highCapSlot: int, early: bool)
    requires t.eCall == Some(call) && t.inProgress && call.phoneId in t.data && call.phoneId != INVALID_SLOT_ID
    requires highCapSlot != call.phoneId && t.data[call.phoneId].eCallNWScanFailed
    requires !t.data[call.phoneId].triggerHighCapSwitch
    requires forall k :: k in t.data && k != call.phoneId ==> !t.data[k].eCallNWScanFailed
    ensures var t' := Recovering(t, call, highCapSlot, early);
      && t'.data == t.data[call.phoneId := t.data[call.phoneId].(triggerHighCapSwitch := true)]
      && t'.eCall.None? && !t'.inProgress && t'.asked == t.asked + [SwitchTo(call.phoneId, true)]
  {
    LeastFlagged(t.data, call.phoneId);
  }

  lemma OneDue(t: Tel, slot: int, on: set<int>)
    requires forall k :: k in t.data && Due(t.data[k]) ==> k == slot
    ensures Redials(t, SwitchCompleted(true, on))
         == if slot in t.data && Due(t.data[slot]) then [RedialOf(t, slot, on)] else []
  {
    RedialAllDialsTheDue(t, t.data.Keys, on);
    var calls := Redials(t, SwitchCompleted(true, on));
    assert OnlyTheDue(t, t.data.Keys, on, calls) && AllTheDue(t, t.data.Keys, on, calls);
    if calls != [] {
      var last := |calls| - 1;
      assert calls[0].slot == slot && calls[last].slot == slot;
      assert last == 0;
    }
    assert slot in t.data && Due(t.data[slot]) ==> RedialOf(t, slot, on) in calls;
  }

  /** The recovery works: an eCall of the user whose emergency network scan fails on a slot without high
      capability leads to one switch to that slot, asked for only when the call has ended, and once the
      switch completes to one redial with the user's parameters if the MSD was transmitted; if it was
      not, or nothing was heard of it, to none. */
  lemma RecoveryRedials(t: Tel, slot: int, params: Params, listening: bool, call: Call, status: Option<MsdStatus>,
                        highCapSlot: int, early: bool, on: set<int>)
    requires t.eCall.None? && call.phoneId == slot && slot != INVALID_SLOT_ID && highCapSlot != slot
    requires SwitchesSound(t.data) && forall k :: k in t.data && k != slot ==> !t.data[k].eCallNWScanFailed
    ensures var t' := Recovering(UntilScanFailed(t, slot, params, listening, call, status), call, highCapSlot, early);
      && !t'.inProgress && t'.asked == t.asked + [SlotQuery(true), SwitchTo(slot, true)]
      && Redials(t', SwitchCompleted(true, on))
         == if status == Some(MsdSuccess) then [MakeCall(slot, params, slot in on)] else []
  {
    var failed := UntilScanFailed(t, slot, params, listening, call, status);
    ScanFailedState(t, slot, params, listening, call, status);
    RecoveringState(failed, call, highCapSlot, early);
    OneDue(Recovering(failed, call, highCapSlot, early), slot, on);
  }
}
