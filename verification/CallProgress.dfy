/** Runs of the eCall application without the multi-SIM recovery: what eCallInprogress_ means, and
    that what is held for a call is neither leaked nor lost. */
module CallProgress {
  import opened Wrappers
  import opened ECalls

  /** A makeECall the modem has not answered, and the call that dialled since, which the application
      takes for the one being made. */
  datatype Making = NotMaking | Making(dialled: Option<Call>)

  /** making, answering: the requests the modem has not answered.
      begun: the slot for which triggerECall or answerCall was last accepted, if eCallInprogress_ has
      been set ever since.
      voiceFor: the slot of the last accepted start or answer, or of the call adopted since.
      refused: whether thermal protection was refused when the resources were last set up.
      lapsed: whether a renewal of the protection since was refused, and none accepted after it.
      ended: the calls that have ended; a call that dials or is answered under the same slot and index
      is a new one. */
  datatype App = App(
    service: Service,
    making: Making,
    answering: Option<Call>,
    begun: Option<int>,
    voiceFor: int,
    refused: bool,
    lapsed: bool,
    ended: set<Call>)

  datatype Event =
    | Triggered(slot: int, params: Params, fixed: bool, disableAccepted: bool, makeAccepted: bool)
    | AnswerRequested(slot: int, calls: seq<CallView>, disableAccepted: bool, answerAccepted: bool)
    | CallChanged(v: CallView, disableAccepted: bool)
    | Made(success: bool, call: Call)
    | AnswerDone(success: bool)
    | MsdChanged(slot: int, status: MsdStatus)
    | LocationFix
    | ThermalNotice(disableAccepted: bool)

  function Step(a: App, e: Event): App {
    var tel, held := a.service.tel, a.service.held;
    match e
    case Triggered(slot, params, fixed, disableAccepted, makeAccepted) =>
      if tel.inProgress then a
      else
        var a' := a.(service := Trigger(a.service, slot, params, fixed, disableAccepted, makeAccepted),
                     begun := None, refused := !disableAccepted, lapsed := false);
        if makeAccepted then a'.(making := Making(None), begun := Some(slot), voiceFor := slot) else a'
    case AnswerRequested(slot, calls, disableAccepted, answerAccepted) =>
      if tel.inProgress then a
      else
        var a' := a.(service := AnswerIncoming(a.service, slot, calls, disableAccepted, answerAccepted),
                     begun := None, refused := !disableAccepted, lapsed := false);
        var incoming := FirstIncoming(calls, slot);
        if incoming.None? || !answerAccepted then a'
        else a'.(answering := incoming, begun := Some(slot), voiceFor := slot, ended := a.ended - {incoming.value})
    case CallChanged(v, disableAccepted) =>
      var notice, tel' := CallInfoNotice(tel, v), CallInfo(tel, v);
      var a' := a.(service := Service(tel', Told(held, notice, disableAccepted)),
                   making := if a.making == Making(None) && v.state == Dialing then Making(Some(v.call)) else a.making,
                   begun := if tel'.inProgress then a.begun else None,
                   ended := match v.state
                            case Ended => a.ended + {v.call}
                            case Dialing => a.ended - {v.call}
                            case _ => a.ended);
      if notice.CallConnect? then a'.(voiceFor := notice.phoneId, refused := !disableAccepted, lapsed := false) else a'
    case Made(success, call) =>
      a.(service := Service(MakeResponse(tel, success, call), Told(held, FailureNotice(tel, success), false)),
         making := NotMaking, begun := if success then a.begun else None)
    case AnswerDone(success) =>
      a.(service := Service(AnswerResponse(tel, success), Told(held, FailureNotice(tel, success), false)),
         answering := None, begun := if success then a.begun else None)
    case MsdChanged(slot, status) => a.(service := Service(MsdTransmission(tel, slot, status), held))
    case LocationFix => a.(service := Service(tel, Located(tel, held)))
    case ThermalNotice(disableAccepted) =>
      a.(service := Service(tel, held.(therm := ShutdownNoticed(held.therm, disableAccepted))),
         lapsed := if held.therm.shutdownAllowed then a.lapsed else !disableAccepted)
  }

  const START :=
    App(Service(Tel(None, false, false, map[], [], []), Held(Therm(true, []), NO_PHONE, false, [])),
        NotMaking, None, None, NO_PHONE, false, false, {})

  function After(a: App, es: seq<Event>): App
    decreases |es|
  {
    if es == [] then a else After(Step(a, es[0]), es[1..])
  }

  // ------------------------------------------------------------------ what the flag means

  /** The flag means that there is a call, or one is being made. */
  predicate ProgressExact(a: App) {
    a.service.tel.inProgress <==> a.service.tel.eCall.Some? || a.making.Making?
  }

  /** The four ways for an event to spoil that meaning: the call being made ends, a makeECall is said to
      fail while there is a call or to succeed when nothing is in progress, or an answer is said to
      fail while a call is being made. */
  predicate Breaks(a: App, e: Event) {
    match e
    case CallChanged(v, _) => v.state == Ended && a.making == Making(Some(v.call))
    case Made(success, _) => if success then !a.service.tel.inProgress else a.service.tel.eCall.Some?
    case AnswerDone(success) => !success && a.making.Making?
    case _ => false
  }

  predicate ProgressInvariant(a: App) {
    ProgressExact(a) && (a.making.Making? ==> a.service.tel.eCall == a.making.dialled)
  }

  /** An event keeps the meaning of the flag if and only if it is none of the four. */
  lemma StepExact(a: App, e: Event)
    requires ProgressInvariant(a)
    ensures ProgressExact(Step(a, e)) <==> !Breaks(a, e)
    ensures !Breaks(a, e) ==> ProgressInvariant(Step(a, e))
  {}

  predicate AlwaysExact(a: App, es: seq<Event>)
    decreases |es|
  {
    ProgressExact(a) && (es == [] || AlwaysExact(Step(a, es[0]), es[1..]))
  }

  predicate NeverBreaks(a: App, es: seq<Event>)
    decreases |es|
  {
    es == [] || (!Breaks(a, es[0]) && NeverBreaks(Step(a, es[0]), es[1..]))
  }

  lemma {:induction false} RunExact(a: App, es: seq<Event>)
    requires ProgressInvariant(a)
    ensures AlwaysExact(a, es) <==> NeverBreaks(a, es)
    decreases |es|
  {
    if es != [] {
      StepExact(a, es[0]);
      if !Breaks(a, es[0]) {
        RunExact(Step(a, es[0]), es[1..]);
      }
    }
  }

  /** Over all event sequences, eCallInprogress_ holds exactly while there is a call or one is being
      made, if and only if none of the four events ever comes. */
  lemma ProgressMeansACall(es: seq<Event>)
    ensures AlwaysExact(START, es) <==> NeverBreaks(START, es)
  {
    RunExact(START, es);
  }

  // ------------------------------------------------------------------ the call that is held

  /** The call that is held has not ended. */
  predicate Live(a: App) {
    a.service.tel.eCall.Some? ==> a.service.tel.eCall.value !in a.ended
  }

  /** A makeECall is said to succeed with a call that has ended. */
  predicate Revives(a: App, e: Event) {
    e.Made? && e.success && e.call in a.ended
  }

  lemma CallChangedLive(a: App, v: CallView, disableAccepted: bool)
    requires Live(a)
    ensures Live(Step(a, CallChanged(v, disableAccepted)))
  {}

  lemma StepLive(a: App, e: Event)
    requires Live(a)
    ensures Live(Step(a, e)) <==> !Revives(a, e)
  {
    if e.CallChanged? {
      CallChangedLive(a, e.v, e.disableAccepted);
    }
  }

  predicate AlwaysLive(a: App, es: seq<Event>)
    decreases |es|
  {
    Live(a) && (es == [] || AlwaysLive(Step(a, es[0]), es[1..]))
  }

  predicate NeverRevives(a: App, es: seq<Event>)
    decreases |es|
  {
    es == [] || (!Revives(a, es[0]) && NeverRevives(Step(a, es[0]), es[1..]))
  }

  lemma {:induction false} RunLive(a: App, es: seq<Event>)
    requires Live(a)
    ensures AlwaysLive(a, es) <==> NeverRevives(a, es)
    decreases |es|
  {
    if es != [] {
      StepLive(a, es[0]);
      if !Revives(a, es[0]) {
        RunLive(Step(a, es[0]), es[1..]);
      }
    }
  }

  /** Over all event sequences, eCall_ is always a call that has not ended, if and only if no makeECall
      is said to succeed with a call that has. */
  lemma HeldCallIsLive(es: seq<Event>)
    ensures AlwaysLive(START, es) <==> NeverRevives(START, es)
  {
    RunLive(START, es);
  }

  /** With no call held, one is taken up exactly when it dials, when a makeECall succeeds with it, or when
      it is the first incoming one of the slot that is answered. */
  lemma CallTakenExactly(a: App, e: Event, call: Call)
    requires a.service.tel.eCall.None?
    ensures Step(a, e).service.tel.eCall == Some(call) <==>
      match e
      case CallChanged(v, _) => v == CallView(call, Dialing)
      case Made(success, made) => success && made == call
      case AnswerRequested(slot, calls, _, answerAccepted) =>
        !a.service.tel.inProgress && answerAccepted && FirstIncoming(calls, slot) == Some(call)
      case _ => false
  {}

  /** The call held is let go exactly when it ends, when a makeECall succeeds with another, when an answer
      fails, and, should nothing be in progress, when another is answered or the answer refused. */
  lemma CallLetGoExactly(a: App, e: Event, call: Call)
    requires a.service.tel.eCall == Some(call)
    ensures Step(a, e).service.tel.eCall != Some(call) <==>
      match e
      case CallChanged(v, _) => v == CallView(call, Ended)
      case Made(success, made) => success && made != call
      case AnswerDone(success) => !success
      case AnswerRequested(slot, calls, _, answerAccepted) =>
        !a.service.tel.inProgress && FirstIncoming(calls, slot).Some?
        && (!answerAccepted || FirstIncoming(calls, slot).value != call)
      case _ => false
  {}

  /** There is a listener from the first start or answer that is accepted until an answer fails; without
      one, nothing the modem says of a call changes what is held. */
  lemma ListenerExactly(a: App, e: Event)
    ensures Step(a, e).service.tel.listening <==>
      match e
      case Triggered(_, _, _, _, makeAccepted) => a.service.tel.listening || (!a.service.tel.inProgress && makeAccepted)
      case AnswerRequested(slot, calls, _, answerAccepted) =>
        a.service.tel.listening || (!a.service.tel.inProgress && answerAccepted && FirstIncoming(calls, slot).Some?)
      case AnswerDone(success) => a.service.tel.listening && success
      case _ => a.service.tel.listening
    ensures !a.service.tel.listening && (e.CallChanged? || e.Made? || e.AnswerDone?) ==>
      Step(a, e).service.held == a.service.held
  {}

  /** During a call triggerECall and answerCall do nothing at all; otherwise just one call is asked for, and
      refused or not, its parameters are those given. */
  lemma RefusedDuringCall(s: Service, slot: int, params: Params, fixed: bool, calls: seq<CallView>,
                          disableAccepted: bool, accepted: bool)
    ensures s.tel.inProgress ==>
      && Trigger(s, slot, params, fixed, disableAccepted, accepted) == s
      && AnswerIncoming(s, slot, calls, disableAccepted, accepted) == s
    ensures !s.tel.inProgress ==>
      var s' := Trigger(s, slot, params, fixed, disableAccepted, accepted);
      && s'.tel.made == s.tel.made + [MakeCall(slot, params, accepted)] && s'.tel.inProgress == accepted
      && s'.tel.asked == s.tel.asked && s'.tel.eCall == s.tel.eCall
      && (accepted ==> slot in s'.tel.data && s'.tel.data[slot].params == params)
      && (!accepted ==> s'.tel.data == s.tel.data)
      && s'.held.locFixReceived == fixed
    ensures AnswerIncoming(s, slot, calls, disableAccepted, accepted).tel.made == s.tel.made
  {}

  // ------------------------------------------------------------------ a well-behaved modem

  /** The modem answers only what it was asked; a makeECall succeeds with a call that has not ended, and
      fails only if no call dialled while it was unanswered; and the call taken for the one being made,
      or being answered, does not end before the answer. */
  predicate KeepsPromises(a: App, e: Event) {
    match e
    case CallChanged(v, _) => v.state == Ended ==> a.making != Making(Some(v.call)) && a.answering != Some(v.call)
    case Made(success, call) => a.making.Making? && if success then call !in a.ended else a.making.dialled.None?
    case AnswerDone(_) => a.answering.Some?
    case _ => true
  }

  predicate PromisesKept(a: App, es: seq<Event>)
    decreases |es|
  {
    es == [] || (KeepsPromises(a, es[0]) && PromisesKept(Step(a, es[0]), es[1..]))
  }

  predicate PromiseInvariant(a: App) {
    ProgressInvariant(a) && (a.answering.Some? ==> a.service.tel.eCall == a.answering && a.making.NotMaking?)
  }

  lemma {:induction false} PromisesSuffice(a: App, es: seq<Event>)
    requires PromiseInvariant(a) && PromisesKept(a, es)
    ensures NeverBreaks(a, es) && NeverRevives(a, es)
    decreases |es|
  {
    if es != [] {
      StepExact(a, es[0]);
      PromisesSuffice(Step(a, es[0]), es[1..]);
    }
  }

  /** With a modem that keeps its promises, eCallInprogress_ always means that there is a call that has
      not ended, or that one is being made, and everything is held exactly then. */
  lemma PromisedProgress(es: seq<Event>)
    requires PromisesKept(START, es)
    ensures AlwaysExact(START, es) && AlwaysLive(START, es) && AlwaysHeldForCalls(START, es)
  {
    PromisesSuffice(START, es);
    RunExact(START, es);
    RunLive(START, es);
    HeldForCallsAlways(START, es);
  }

  /** One of the four, for every call: if the response to makeECall comes after the end, the application
      keeps a call that is over, and does not think that one is in progress. */
  lemma LateResponseLeavesAGhost(slot: int, params: Params, call: Call)
    ensures var es := [Triggered(slot, params, false, true, true), CallChanged(CallView(call, Dialing), true),
                       CallChanged(CallView(call, Ended), true), Made(true, call)];
      After(START, es).service.tel.eCall == Some(call) && !ProgressExact(After(START, es))
  {
    var e1, e2 := Triggered(slot, params, false, true, true), CallChanged(CallView(call, Dialing), true);
    var e3, e4 := CallChanged(CallView(call, Ended), true), Made(true, call);
    AfterFour(START, e1, e2, e3, e4);
  }

  /** Another of them, for every call: a late failure of the makeECall that it came from takes all that is
      held away from a call that goes on. */
  lemma LateFailureStripsTheCall(slot: int, params: Params, call: Call, other: Call)
    ensures var es := [Triggered(slot, params, false, true, true), CallChanged(CallView(call, Dialing), true),
                       Made(false, other)];
      var a := After(START, es);
      && a.service.tel.eCall == Some(call) && Live(a) && a.service.tel.listening
      && a.service.held.therm.shutdownAllowed && VoiceSlot(a.service.held.resources).None?
  {
    var e1, e2 := Triggered(slot, params, false, true, true), CallChanged(CallView(call, Dialing), true);
    var e3 := Made(false, other);
    AfterThree(START, e1, e2, e3);
    ResourcesGrow(Step(Step(START, e1), e2).service.held.resources, 0);
  }

  /** Without any of the four, for every call: if a makeECall succeeds with a call that has ended, all is
      held for a call that is over. */
  lemma EndedCallKeepsProtection(slot: int, params: Params, call: Call)
    ensures var es := [Triggered(slot, params, false, true, true), CallChanged(CallView(call, Ended), true),
                       Made(true, call)];
      var a := After(START, es);
      && NeverBreaks(START, es)
      && a.service.tel.eCall == Some(call) && !Live(a) && a.service.tel.inProgress
      && !a.service.held.therm.shutdownAllowed && VoiceSlot(a.service.held.resources) == Some(slot)
  {
    var e1, e2 := Triggered(slot, params, false, true, true), CallChanged(CallView(call, Ended), true);
    var e3 := Made(true, call);
    AfterThree(START, e1, e2, e3);
    var a1 := Step(START, e1);
    var a2 := Step(a1, e2);
    ResourcesGrow([], slot);
    assert NeverBreaks(Step(a2, e3), []);
    assert [e3][1..] == [] && NeverBreaks(a2, [e3]);
    assert [e2, e3][1..] == [e3] && NeverBreaks(a1, [e2, e3]);
    assert [e1, e2, e3][1..] == [e2, e3];
  }

  lemma AfterThree(a: App, e1: Event, e2: Event, e3: Event)
    ensures After(a, [e1, e2, e3]) == Step(Step(Step(a, e1), e2), e3)
  {
    var a1 := Step(a, e1);
    var a2 := Step(a1, e2);
    assert After(a2, [e3]) == Step(a2, e3);
    assert [e2, e3][1..] == [e3];
    assert After(a1, [e2, e3]) == After(a2, [e3]);
    assert [e1, e2, e3][1..] == [e2, e3];
  }

  lemma AfterFour(a: App, e1: Event, e2: Event, e3: Event, e4: Event)
    ensures After(a, [e1, e2, e3, e4]) == Step(Step(Step(Step(a, e1), e2), e3), e4)
  {
    AfterThree(Step(a, e1), e2, e3, e4);
    assert [e1, e2, e3, e4][1..] == [e2, e3, e4];
  }

  // ------------------------------------------------------------------ what is held for a call

  /** The slot of the voice session that was asked for last, unless its stop was asked for since. */
  function VoiceSlot(resources: seq<ResourceAction>): Option<int> {
    if resources == [] then None
    else
      match resources[|resources| - 1]
      case VoiceStarted(slot) => Some(slot)
      case VoiceStopped => None
      case _ => VoiceSlot(resources[..|resources| - 1])
  }

  predicate UpdatesOn(resources: seq<ResourceAction>) {
    resources != [] &&
    match resources[|resources| - 1]
    case UpdatesStarted => true
    case UpdatesStopped => false
    case _ => UpdatesOn(resources[..|resources| - 1])
  }

  lemma ResourcesGrow(resources: seq<ResourceAction>, slot: int)
    ensures VoiceSlot(resources + [VoiceStarted(slot), UpdatesStarted]) == Some(slot)
    ensures UpdatesOn(resources + [VoiceStarted(slot), UpdatesStarted])
    ensures VoiceSlot(resources + [VoiceStopped, UpdatesStopped]).None?
    ensures !UpdatesOn(resources + [VoiceStopped, UpdatesStopped])
  {
    var on, off := resources + [VoiceStarted(slot), UpdatesStarted], resources + [VoiceStopped, UpdatesStopped];
    assert on[..|on| - 1][|on| - 2] == VoiceStarted(slot);
    assert off[..|off| - 1][|off| - 2] == VoiceStopped;
  }

  /** Whether the client's last word on registering for thermal notices was to register. */
  predicate Registered(trace: seq<ThermAction>) {
    trace != [] &&
    match trace[|trace| - 1]
    case RegisterRequested => true
    case DeregisterRequested => false
    case _ => Registered(trace[..|trace| - 1])
  }

  /** Whether the last command was to disable auto-shutdown. */
  predicate DisabledLast(trace: seq<ThermAction>) {
    trace != [] &&
    match trace[|trace| - 1]
    case DisableRequested(_) => true
    case EnableRequested => false
    case _ => DisabledLast(trace[..|trace| - 1])
  }

  /** Whether auto-shutdown is off as far as the client has been told: a command to disable it was
      accepted, and it was not enabled since, nor did a notice come that it is. */
  predicate InForce(trace: seq<ThermAction>) {
    trace != [] &&
    match trace[|trace| - 1]
    case DisableRequested(accepted) => accepted || InForce(trace[..|trace| - 1])
    case EnableRequested => false
    case ShutdownNotice => false
    case _ => InForce(trace[..|trace| - 1])
  }

  /** A notice that auto-shutdown is on is followed at once by a command to disable it, if and only if
      the client is registered for notices. */
  predicate NoticesAnswered(trace: seq<ThermAction>) {
    forall i :: 0 <= i < |trace| && trace[i].ShutdownNotice? ==> (Registered(trace[..i]) <==> Answered(trace, i))
  }

  predicate Answered(trace: seq<ThermAction>, i: nat) {
    i + 1 < |trace| && trace[i + 1].DisableRequested?
  }

  predicate ThermInvariant(t: Therm) {
    && (Registered(t.trace) <==> !t.shutdownAllowed)
    && (!t.shutdownAllowed ==> DisabledLast(t.trace))
    && NoticesAnswered(t.trace)
  }

  /** Actions that are no notice, and do not begin with a command to disable, answer no notice. */
  lemma NoticesStayAnswered(trace: seq<ThermAction>, more: seq<ThermAction>)
    requires NoticesAnswered(trace) && (more != [] ==> !more[0].DisableRequested?)
    requires forall i :: 0 <= i < |more| ==> !more[i].ShutdownNotice?
    ensures NoticesAnswered(trace + more)
  {
    var all := trace + more;
    assert forall i :: |trace| <= i < |all| ==> all[i] == more[i - |trace|];
    forall i | 0 <= i < |all| && all[i].ShutdownNotice? ensures Registered(all[..i]) <==> Answered(all, i) {
      assert i < |trace|;
      assert all[i] == trace[i] && all[..i] == trace[..i];
      assert Answered(all, i) <==> Answered(trace, i);
    }
  }

  lemma DisableKeeps(t: Therm, accepted: bool)
    requires ThermInvariant(t)
    ensures ThermInvariant(DisableShutdown(t, accepted))
    ensures accepted ==> InForce(DisableShutdown(t, accepted).trace)
  {
    var asked := t.trace + [RegisterRequested, DisableRequested(accepted)];
    assert asked[..|asked| - 1][|asked| - 2] == RegisterRequested;
    NoticesStayAnswered(t.trace, [RegisterRequested, DisableRequested(accepted)]);
    NoticesStayAnswered(asked, [DeregisterRequested]);
  }

  lemma EnableKeeps(t: Therm)
    requires ThermInvariant(t)
    ensures ThermInvariant(EnableShutdown(t))
  {
    NoticesStayAnswered(t.trace, [EnableRequested, DeregisterRequested]);
  }

  /** One more notice is not answered yet, and answers none. */
  lemma NoticeIsLast(trace: seq<ThermAction>)
    requires NoticesAnswered(trace)
    ensures var noticed := trace + [ShutdownNotice];
      && Registered(noticed) == Registered(trace) && DisabledLast(noticed) == DisabledLast(trace)
      && (forall i :: 0 <= i < |trace| && noticed[i].ShutdownNotice? ==>
            (Registered(noticed[..i]) <==> Answered(noticed, i)))
      && noticed[..|trace|] == trace && !Answered(noticed, |trace|)
  {
    var noticed := trace + [ShutdownNotice];
    assert noticed[..|trace|] == trace;
    forall i | 0 <= i < |trace| && noticed[i].ShutdownNotice?
      ensures Registered(noticed[..i]) <==> Answered(noticed, i)
    {
      assert noticed[i] == trace[i] && noticed[..i] == trace[..i];
      assert Answered(noticed, i) <==> Answered(trace, i);
    }
  }

  lemma NoticeKeeps(t: Therm, accepted: bool)
    requires ThermInvariant(t)
    ensures ThermInvariant(ShutdownNoticed(t, accepted))
    ensures !t.shutdownAllowed ==> InForce(ShutdownNoticed(t, accepted).trace) == accepted
  {
    var n := |t.trace|;
    var noticed := t.trace + [ShutdownNotice];
    NoticeIsLast(t.trace);
    if t.shutdownAllowed {
      assert NoticesAnswered(noticed);
    } else {
      var all := noticed + [DisableRequested(accepted)];
      assert t.trace + [ShutdownNotice, DisableRequested(accepted)] == all;
      assert all[..|all| - 1] == noticed && !InForce(noticed);
      forall i | 0 <= i < |all| && all[i].ShutdownNotice? ensures Registered(all[..i]) <==> Answered(all, i) {
        assert i <= n && all[i] == noticed[i] && all[..i] == noticed[..i];
        assert i < n ==> (Answered(all, i) <==> Answered(noticed, i));
      }
    }
  }

  /** The commands to the thermal manager. */
  function ModeCommands(trace: seq<ThermAction>): seq<ThermAction> {
    if trace == [] then []
    else
      var last := trace[|trace| - 1];
      ModeCommands(trace[..|trace| - 1]) + if IsModeCommand(last) then [last] else []
  }

  /** A set-up commands auto-shutdown off once, a clean-up on once, and a notice off once more if shutdown
      is not allowed; there are no other commands. */
  lemma CommandsExactly(t: Therm, accepted: bool)
    ensures ModeCommands(DisableShutdown(t, accepted).trace) == ModeCommands(t.trace) + [DisableRequested(accepted)]
    ensures ModeCommands(EnableShutdown(t).trace) == ModeCommands(t.trace) + [EnableRequested]
    ensures ModeCommands(ShutdownNoticed(t, accepted).trace)
         == ModeCommands(t.trace) + if t.shutdownAllowed then [] else [DisableRequested(accepted)]
  {
    DisableCommands(t, accepted);
    EnableCommands(t);
    NoticeCommands(t, accepted);
  }

  predicate IsModeCommand(a: ThermAction) {
    a.DisableRequested? || a.EnableRequested?
  }

  lemma OneMoreCommand(trace: seq<ThermAction>, command: ThermAction)
    requires IsModeCommand(command)
    ensures ModeCommands(trace + [command]) == ModeCommands(trace) + [command]
  {
    assert (trace + [command])[..|trace|] == trace;
  }

  lemma NoMoreCommand(trace: seq<ThermAction>, action: ThermAction)
    requires !IsModeCommand(action)
    ensures ModeCommands(trace + [action]) == ModeCommands(trace)
  {
    assert (trace + [action])[..|trace|] == trace;
    assert ModeCommands(trace) + [] == ModeCommands(trace);
  }

  lemma DisableCommands(t: Therm, accepted: bool)
    ensures ModeCommands(DisableShutdown(t, accepted).trace) == ModeCommands(t.trace) + [DisableRequested(accepted)]
  {
    var asked := t.trace + [RegisterRequested, DisableRequested(accepted)];
    assert asked == t.trace + [RegisterRequested] + [DisableRequested(accepted)];
    NoMoreCommand(t.trace, RegisterRequested);
    OneMoreCommand(t.trace + [RegisterRequested], DisableRequested(accepted));
    NoMoreCommand(asked, DeregisterRequested);
  }

  lemma EnableCommands(t: Therm)
    ensures ModeCommands(EnableShutdown(t).trace) == ModeCommands(t.trace) + [EnableRequested]
  {
    assert EnableShutdown(t).trace == t.trace + [EnableRequested] + [DeregisterRequested];
    OneMoreCommand(t.trace, EnableRequested);
    NoMoreCommand(t.trace + [EnableRequested], DeregisterRequested);
  }

  lemma NoticeCommands(t: Therm, accepted: bool)
    ensures ModeCommands(ShutdownNoticed(t, accepted).trace)
         == ModeCommands(t.trace) + if t.shutdownAllowed then [] else [DisableRequested(accepted)]
  {
    NoMoreCommand(t.trace, ShutdownNotice);
    if t.shutdownAllowed {
      assert ModeCommands(t.trace) + [] == ModeCommands(t.trace);
    } else {
      assert ShutdownNoticed(t, accepted).trace == t.trace + [ShutdownNotice] + [DisableRequested(accepted)];
      OneMoreCommand(t.trace + [ShutdownNotice], DisableRequested(accepted));
    }
  }

  /** Voice session and location updates are on exactly while on is true and somebody is there to turn
      them off afterwards, the session being for voiceFor; so is thermal protection, unless it was
      refused. */
  predicate HeldWhile(a: App, on: bool) {
    var held, wanted := a.service.held, on && a.service.tel.listening;
    && VoiceSlot(held.resources) == (if wanted then Some(a.voiceFor) else None)
    && (UpdatesOn(held.resources) <==> wanted)
    && (!held.therm.shutdownAllowed <==> wanted && !a.refused)
  }

  /** All of that while eCallInprogress_ is set; while it is held, protection is in force unless its last
      renewal was refused; and phoneId_ is the slot last begun, or none. */
  predicate HeldExact(a: App) {
    var tel, held := a.service.tel, a.service.held;
    && HeldWhile(a, tel.inProgress)
    && (!held.therm.shutdownAllowed ==> (InForce(held.therm.trace) <==> !a.lapsed))
    && (a.begun.Some? ==> tel.inProgress && tel.listening)
    && held.phoneId == (if a.begun.Some? then a.begun.value else NO_PHONE)
  }

  predicate HeldInvariant(a: App) {
    HeldExact(a) && ThermInvariant(a.service.held.therm)
  }

  lemma SetupHolds(h: Held, slot: int, disableAccepted: bool)
    requires ThermInvariant(h.therm)
    ensures var s := Setup(h, slot, disableAccepted);
      && ThermInvariant(s.therm) && s.therm.shutdownAllowed == !disableAccepted
      && (disableAccepted ==> InForce(s.therm.trace))
      && VoiceSlot(s.resources) == Some(slot) && UpdatesOn(s.resources)
  {
    DisableKeeps(h.therm, disableAccepted);
    ResourcesGrow(h.resources, slot);
  }

  lemma CleanupReleases(h: Held)
    requires ThermInvariant(h.therm)
    ensures var c := Cleanup(h);
      && ThermInvariant(c.therm) && c.therm.shutdownAllowed
      && VoiceSlot(c.resources).None? && !UpdatesOn(c.resources)
  {
    EnableKeeps(h.therm);
    ResourcesGrow(h.resources, 0);
  }

  lemma TriggerHolds(a: App, e: Event)
    requires HeldInvariant(a) && e.Triggered?
    ensures HeldInvariant(Step(a, e))
  {
    SetupHolds(a.service.held, e.slot, e.disableAccepted);
    CleanupReleases(Setup(a.service.held, e.slot, e.disableAccepted).(phoneId := e.slot, locFixReceived := e.fixed));
  }

  lemma AnswerHolds(a: App, e: Event)
    requires HeldInvariant(a) && e.AnswerRequested?
    ensures HeldInvariant(Step(a, e))
  {
    SetupHolds(a.service.held, e.slot, e.disableAccepted);
    CleanupReleases(Setup(a.service.held, e.slot, e.disableAccepted).(phoneId := e.slot));
  }

  lemma CallChangedHolds(a: App, v: CallView, disableAccepted: bool)
    requires HeldInvariant(a)
    ensures HeldInvariant(Step(a, CallChanged(v, disableAccepted)))
  {
    match CallInfoNotice(a.service.tel, v)
    case NoNotice =>
    case CallConnect(slot) => SetupHolds(a.service.held, slot, disableAccepted);
    case CallDisconnect => CleanupReleases(a.service.held);
  }

  lemma ResponseHolds(a: App, e: Event)
    requires HeldInvariant(a) && (e.Made? || e.AnswerDone?)
    ensures HeldInvariant(Step(a, e))
  {
    CleanupReleases(a.service.held);
  }

  lemma HeldStep(a: App, e: Event)
    requires HeldInvariant(a)
    ensures HeldInvariant(Step(a, e))
  {
    match e
    case Triggered(_, _, _, _, _) => TriggerHolds(a, e);
    case AnswerRequested(_, _, _, _) => AnswerHolds(a, e);
    case CallChanged(v, disableAccepted) => CallChangedHolds(a, v, disableAccepted);
    case Made(_, _) => ResponseHolds(a, e);
    case AnswerDone(_) => ResponseHolds(a, e);
    case ThermalNotice(disableAccepted) => NoticeKeeps(a.service.held.therm, disableAccepted);
    case _ =>
  }

  lemma {:induction false} HeldRun(a: App, es: seq<Event>)
    requires HeldInvariant(a)
    ensures HeldInvariant(After(a, es))
    decreases |es|
  {
    if es != [] {
      HeldStep(a, es[0]);
      HeldRun(Step(a, es[0]), es[1..]);
    }
  }

  /** Over all event sequences, whatever the modem does: thermal protection, voice session and location
      updates are held exactly while eCallInprogress_ is set and there is a listener, except for
      protection that was refused when they were set up. */
  lemma ProtectionNeverLeaks(es: seq<Event>)
    ensures HeldExact(After(START, es))
  {
    HeldRun(START, es);
  }

  /** Whether there is a call, or one is being made. */
  predicate InCall(a: App) {
    a.service.tel.eCall.Some? || a.making.Making?
  }

  /** Over all event sequences, they are held exactly while there is a call or one is being made, and a
      listener, if and only if there is no listener or eCallInprogress_ is right. */
  lemma HeldForCallsExactly(es: seq<Event>)
    ensures var a := After(START, es);
      HeldWhile(a, InCall(a)) <==> !a.service.tel.listening || ProgressExact(a)
  {
    HeldRun(START, es);
  }

  predicate AlwaysHeldForCalls(a: App, es: seq<Event>)
    decreases |es|
  {
    HeldWhile(a, InCall(a)) && (es == [] || AlwaysHeldForCalls(Step(a, es[0]), es[1..]))
  }

  /** So they always are, as long as none of the four events comes that spoil the flag. */
  lemma {:induction false} HeldForCallsAlways(a: App, es: seq<Event>)
    requires HeldInvariant(a) && ProgressInvariant(a) && NeverBreaks(a, es)
    ensures AlwaysHeldForCalls(a, es)
    decreases |es|
  {
    assert ProgressExact(a);
    if es != [] {
      HeldStep(a, es[0]);
      StepExact(a, es[0]);
      HeldForCallsAlways(Step(a, es[0]), es[1..]);
    }
  }

  /** Over all event sequences, the client is registered for notices exactly while protection is held,
      and then its last command was to disable auto-shutdown; every notice is answered by a new such
      command if protection was held, and only then; and protection that is held is in force if and
      only if the last such command since it was set up, if any, was accepted. */
  lemma ProtectionRenewed(es: seq<Event>)
    ensures var a := After(START, es); var therm := a.service.held.therm;
      ThermInvariant(therm) && (!therm.shutdownAllowed ==> (InForce(therm.trace) <==> !a.lapsed))
  {
    HeldRun(START, es);
  }

  /** Over all event sequences, a location fix during a call updates the MSD for the slot of that call
      if and only if that slot is the one last begun: triggerECall or answerCall was accepted for it,
      and eCallInprogress_ has been set ever since. Otherwise no MSD is updated, and the fix counts as
      received. */
  lemma UpdatesReachTheCall(es: seq<Event>)
    ensures var a := After(START, es); var tel := a.service.tel;
      tel.eCall.Some? && tel.inProgress && tel.eCall.value.phoneId != NO_PHONE ==>
        var slot := Some(tel.eCall.value.phoneId);
        UpdatedSlot(tel, a.service.held) == slot <==> a.begun == slot
    ensures var a := After(START, es); var next := Step(a, LocationFix);
      && (UpdatedSlot(a.service.tel, a.service.held).Some? <==> a.service.tel.inProgress)
      && next.service.tel == a.service.tel
      && (next.service.held.locFixReceived <==> a.service.held.locFixReceived || !a.service.tel.inProgress)
  {
    HeldRun(START, es);
  }

  /** When the modem redials after the end of a call, the voice session is for the slot of the new call,
      but its MSD updates go to no slot. */
  lemma ModemRedialLosesTheSlot(slot: int, params: Params, call: Call, again: Call)
    ensures var es := [Triggered(slot, params, false, true, true), Made(true, call),
                       CallChanged(CallView(call, Ended), true), CallChanged(CallView(again, Dialing), true)];
      var service := After(START, es).service;
      && PromisesKept(START, es)
      && service.tel.eCall == Some(again) && service.tel.inProgress && !service.held.therm.shutdownAllowed
      && VoiceSlot(service.held.resources) == Some(again.phoneId)
      && UpdatedSlot(service.tel, service.held) == Some(NO_PHONE)
  {
    var e1, e2 := Triggered(slot, params, false, true, true), Made(true, call);
    var e3, e4 := CallChanged(CallView(call, Ended), true), CallChanged(CallView(again, Dialing), true);
    AfterFour(START, e1, e2, e3, e4);
    var a1 := Step(START, e1);
    var a2 := Step(a1, e2);
    var a3 := Step(a2, e3);
    ResourcesGrow(a3.service.held.resources, again.phoneId);
    assert PromisesKept(Step(a3, e4), []);
    assert [e4][1..] == [] && PromisesKept(a3, [e4]);
    assert [e3, e4][1..] == [e4] && PromisesKept(a2, [e3, e4]);
    assert [e2, e3, e4][1..] == [e3, e4] && PromisesKept(a1, [e2, e3, e4]);
    assert [e1, e2, e3, e4][1..] == [e2, e3, e4];
  }
}
