/** The keepalive protocol between the daemon and the provider on an otherwise idle link, as two
    step machines over one clock, and the daemon facing a client that has gone silent.

    Times are clock readings (whole seconds, as std::time gives them). P bounds the time between
    two daemon iterations and D the time from a write until the other end's loop reads it. On an
    idle link nothing but keepalives is sent; otherwise the provider may also send messages of its
    own, as it does when the card is inserted or removed. */
module Keepalive {
  import opened Wrappers
  import opened Messages
  import opened SimConnections

  datatype Timing = Timing(P: nat, D: nat, idle: bool)
  {
    /** The round trip of a keepalive fits what remains of the timeout when it is sent. */
    predicate RoundTripFits() {
      KEEPALIVE_MSG_INTERVAL_SEC + P + 2 * D <= KEEPALIVE_MSG_TIMEOUT_SEC
    }
  }

  /** Both ends, the reading of the clock, the time of the daemon's last iteration, and the send
      times of the requests and responses still on their way. */
  datatype Link = Link(now: int, d: DaemonEnd, iterated: int, p: ProviderEnd, requests: seq<int>, responses: seq<int>)
  {
    predicate Up() {
      d.connected && p.connected
    }
  }

  datatype Event = Tick | DaemonQuiet | DaemonReads | ProviderQuiet | ProviderReads | ProviderSpeaks

  /** Time passes only while no loop iteration and no delivery is overdue. */
  predicate Enabled(t: Timing, s: Link, e: Event) {
    match e
    case Tick =>
      && s.now < s.iterated + t.P
      && (forall m :: m in s.requests ==> s.now < m + t.D)
      && (forall m :: m in s.responses ==> s.now < m + t.D)
    case DaemonReads => s.responses != []
    case ProviderReads => s.requests != []
    case ProviderSpeaks => !t.idle && s.p.connected
    case _ => true
  }

  function Step(s: Link, e: Event): Link {
    match e
    case Tick => s.(now := s.now + 1)
    case DaemonQuiet => DaemonStep(s, QUIET)
    case DaemonReads =>
      if s.responses == [] then s
      else DaemonStep(s.(responses := s.responses[1..]), Delivery([CONN_KEEPALIVE_MSG]))
    case ProviderQuiet => ProviderStep(s, QUIET)
    case ProviderReads =>
      if s.requests == [] then s
      else ProviderStep(s.(requests := s.requests[1..]), Delivery([CONN_KEEPALIVE_MSG]))
    case ProviderSpeaks => s.(responses := s.responses + [s.now])
  }

  function DaemonStep(s: Link, poll: Poll): Link {
    s.(d := DaemonIteration(s.d, poll, s.now),
       iterated := s.now,
       requests := s.requests + if DaemonAction(s.d, poll, s.now) == Probe then [s.now] else [])
  }

  function ProviderStep(s: Link, poll: Poll): Link {
    s.(p := ProviderIteration(s.p, poll, s.now),
       responses := s.responses + if ProviderReply(s.p, poll, s.now) == [] then [] else [s.now])
  }

  /** A run: every event is enabled where it happens. */
  predicate Run(t: Timing, s: Link, es: seq<Event>)
    decreases |es|
  {
    es == [] || (Enabled(t, s, es[0]) && Run(t, Step(s, es[0]), es[1..]))
  }

  function After(s: Link, es: seq<Event>): Link
    decreases |es|
  {
    if es == [] then s else After(Step(s, es[0]), es[1..])
  }

  /** The daemon accepted and the provider connected, at most D apart, with no keepalive pending. */
  predicate Fresh(t: Timing, s: Link) {
    && s.Up() && !s.d.pending
    && s.d.last <= s.p.last + t.D && s.p.last <= s.d.last + t.D
    && s.requests == [] && s.responses == []
    && s.now == (if s.d.last > s.p.last then s.d.last else s.p.last)
    && s.d.last <= s.iterated <= s.now <= s.iterated + t.P
  }

  // ------------------------------------------------------------------ no false disconnect

  /** The three phases of the protocol: nothing, one request, or one response under way. */
  predicate Invariant(t: Timing, s: Link) {
    && s.Up()
    && s.iterated <= s.now <= s.iterated + t.P
    && s.d.last <= s.now && s.p.last <= s.now
    && s.d.last <= s.p.last + (if s.responses == [] then t.D else 0)
    && if !s.d.pending then
         s.requests == [] && s.responses == [] && s.iterated <= s.d.last + KEEPALIVE_MSG_INTERVAL_SEC
       else if s.requests != [] then
         && s.responses == [] && |s.requests| == 1
         && s.requests[0] <= s.d.last + KEEPALIVE_MSG_INTERVAL_SEC + t.P
         && s.now <= s.requests[0] + t.D
       else
         && s.responses == [s.p.last]
         && s.p.last <= s.d.last + KEEPALIVE_MSG_INTERVAL_SEC + t.P + t.D
         && s.now <= s.p.last + t.D
  }

  lemma InvariantStep(t: Timing, s: Link, e: Event)
    requires t.idle && t.RoundTripFits()
    requires Invariant(t, s) && Enabled(t, s, e)
    ensures Invariant(t, Step(s, e))
  {
    assert s.requests != [] ==> s.requests[0] in s.requests;
    assert s.responses != [] ==> s.responses[0] in s.responses;
  }

  lemma {:induction false} InvariantRun(t: Timing, s: Link, es: seq<Event>)
    requires t.idle && t.RoundTripFits()
    requires Invariant(t, s) && Run(t, s, es)
    ensures Invariant(t, After(s, es))
    decreases |es|
  {
    if es != [] {
      InvariantStep(t, s, es[0]);
      InvariantRun(t, Step(s, es[0]), es[1..]);
    }
  }

  /** On an idle link whose round trip fits the timeout neither end ever drops the other, and there
      is never more than one keepalive under way. */
  lemma NoFalseDisconnect(t: Timing, s: Link, es: seq<Event>)
    requires t.idle && t.RoundTripFits()
    requires Fresh(t, s) && Run(t, s, es)
    ensures After(s, es).Up() && |After(s, es).requests| + |After(s, es).responses| <= 1
  {
    InvariantRun(t, s, es);
  }

  // ------------------------------------------------------------------ the bound is exact

  ghost predicate CanReach(t: Timing, s: Link, goal: Link -> bool) {
    exists es :: Run(t, s, es) && goal(After(s, es))
  }

  ghost predicate CanDrop(t: Timing, s: Link) {
    CanReach(t, s, Dropped)
  }

  predicate Dropped(s: Link) {
    !s.Up()
  }

  lemma ReachedAlready(t: Timing, s: Link, goal: Link -> bool)
    requires goal(s)
    ensures CanReach(t, s, goal)
  {
    assert Run(t, s, []) && goal(After(s, []));
  }

  lemma ReachedBy(t: Timing, s: Link, e: Event, goal: Link -> bool)
    requires Enabled(t, s, e) && CanReach(t, Step(s, e), goal)
    ensures CanReach(t, s, goal)
  {
    var es :| Run(t, Step(s, e), es) && goal(After(Step(s, e), es));
    var all := [e] + es;
    assert all[1..] == es;
    assert Run(t, s, all) && goal(After(s, all));
  }

  /** The daemon may sit out k seconds without an iteration, k at most P. */
  lemma {:induction false} DropAfterPause(t: Timing, s: Link, k: nat)
    requires s.now + k <= s.iterated + t.P && s.requests == [] && s.responses == []
    requires CanDrop(t, s.(now := s.now + k))
    ensures CanDrop(t, s)
    decreases k
  {
    if k == 0 {
      assert s.(now := s.now) == s;
    } else {
      DropAfterPause(t, Step(s, Tick), k - 1);
      ReachedBy(t, s, Tick, Dropped);
    }
  }

  /** The daemon may iterate quietly every second for k seconds while nothing is overdue. */
  lemma {:induction false} DropAfterWait(t: Timing, s: Link, k: nat)
    requires t.P >= 1 && s.iterated == s.now && s.d.connected
    requires s.d.pending || s.now + k <= s.d.last + KEEPALIVE_MSG_INTERVAL_SEC
    requires forall m :: m in s.requests ==> s.now + k <= m + t.D
    requires forall m :: m in s.responses ==> s.now + k <= m + t.D
    requires CanDrop(t, s.(now := s.now + k, iterated := s.now + k))
    ensures CanDrop(t, s)
    decreases k
  {
    if k == 0 {
      assert s.(now := s.now, iterated := s.now) == s;
    } else {
      var s1 := Step(s, Tick);
      var s2 := Step(s1, DaemonQuiet);
      if Dropped(s2) {
        ReachedAlready(t, s2, Dropped);
      } else {
        assert s2 == s.(now := s.now + 1, iterated := s.now + 1);
        DropAfterWait(t, s2, k - 1);
      }
      ReachedBy(t, s1, DaemonQuiet, Dropped);
      ReachedBy(t, s, Tick, Dropped);
    }
  }

  /** The daemon looks once more before it reads an answer that took too long. */
  lemma UnreadAnswerCanDrop(t: Timing, answered: Link)
    requires t.P >= 1 && answered.d == DaemonEnd(true, true, 0) && answered.iterated == answered.now
    requires answered.requests == [] && answered.responses == [answered.now]
    requires answered.now + t.D > KEEPALIVE_MSG_TIMEOUT_SEC
    ensures CanDrop(t, answered)
  {
    var late := answered.(now := answered.now + t.D, iterated := answered.now + t.D);
    ReachedAlready(t, Step(late, DaemonQuiet), Dropped);
    ReachedBy(t, late, DaemonQuiet, Dropped);
    DropAfterWait(t, answered, t.D);
  }

  /** A request that takes D to arrive, and so long to answer, is sent too late. */
  lemma LateProbeCanDrop(t: Timing, probed: Link)
    requires t.P >= 1 && probed.d == DaemonEnd(true, true, 0) && probed.p.connected && probed.iterated == probed.now
    requires probed.requests == [probed.now] && probed.responses == []
    requires probed.now + 2 * t.D > KEEPALIVE_MSG_TIMEOUT_SEC
    ensures CanDrop(t, probed)
  {
    var arrived := probed.(now := probed.now + t.D, iterated := probed.now + t.D);
    UnreadAnswerCanDrop(t, Step(arrived, ProviderReads));
    ReachedBy(t, arrived, ProviderReads, Dropped);
    DropAfterWait(t, probed, t.D);
  }

  /** A link that is too slow can lose a healthy client, if the daemon probes as late as it may. */
  lemma SlowLinkCanDrop(t: Timing) returns (s: Link)
    requires t.P >= 1 && !t.RoundTripFits()
    ensures Fresh(t, s) && CanDrop(t, s)
  {
    s := Link(0, DaemonEnd(true, false, 0), 0, ProviderEnd(true, 0), [], []);
    var waited := s.(now := 10, iterated := 10);
    var paused := waited.(now := 10 + t.P);
    LateProbeCanDrop(t, Step(paused, DaemonQuiet));
    ReachedBy(t, paused, DaemonQuiet, Dropped);
    DropAfterPause(t, waited, t.P);
    DropAfterWait(t, s, 10);
  }

  /** A provider that sends messages of its own can be the one to hang up, however fast the link:
      hearing from it, the daemon does not probe, and sends nothing that the provider could hear. */
  lemma SpeakingProviderCanDrop(t: Timing) returns (s: Link)
    requires t.P >= 1 && !t.idle
    ensures Fresh(t, s) && CanDrop(t, s)
  {
    s := Link(0, DaemonEnd(true, false, 0), 0, ProviderEnd(true, 0), [], []);
    var waited := s.(now := 10, iterated := 10);
    var spoken := Step(waited, ProviderSpeaks);
    var heard := Step(spoken, DaemonReads);
    var later := heard.(now := 14, iterated := 14);
    ReachedAlready(t, Step(later, ProviderQuiet), Dropped);
    ReachedBy(t, later, ProviderQuiet, Dropped);
    DropAfterWait(t, heard, 4);
    ReachedBy(t, spoken, DaemonReads, Dropped);
    ReachedBy(t, waited, ProviderSpeaks, Dropped);
    DropAfterWait(t, s, 10);
  }

  /** No run from a fresh connection ever drops it, if and only if the link is idle and 10 + P + 2D
      fits the 13 second timeout. (With P = 0 the clock could not move at all.) */
  lemma ConditionIsExact(t: Timing)
    requires t.P >= 1
    ensures (forall s :: Fresh(t, s) ==> !CanDrop(t, s)) <==> t.idle && t.RoundTripFits()
  {
    if t.idle && t.RoundTripFits() {
      forall s, es | Fresh(t, s) && Run(t, s, es) ensures After(s, es).Up() {
        NoFalseDisconnect(t, s, es);
      }
    } else if !t.idle {
      var s := SpeakingProviderCanDrop(t);
    } else {
      var s := SlowLinkCanDrop(t);
    }
  }

  /** The timing assumptions never block: from every state of a run the clock can move on. */
  lemma TimeCanPass(t: Timing, s: Link)
    requires t.P >= 1 && t.idle && t.RoundTripFits()
    requires Invariant(t, s)
    ensures CanReach(t, s, (l: Link) => l.now == s.now + 1)
  {
    var later := (l: Link) => l.now == s.now + 1;
    InvariantDelivered(t, s);
    var iterated := Step(Delivered(s), DaemonQuiet);
    InvariantStep(t, Delivered(s), DaemonQuiet);
    TickReaches(t, iterated, later);
    ReachedBy(t, Delivered(s), DaemonQuiet, later);
    ReachedByDelivery(t, s, later);
  }

  /** Just after an iteration of the daemon's loop all that is left to do is to read what is under way. */
  lemma TickReaches(t: Timing, s: Link, goal: Link -> bool)
    requires t.P >= 1 && t.idle && t.RoundTripFits()
    requires Invariant(t, s) && s.iterated == s.now && goal(Step(Delivered(s), Tick))
    ensures CanReach(t, s, goal)
  {
    InvariantDelivered(t, s);
    ReachedAlready(t, Step(Delivered(s), Tick), goal);
    ReachedBy(t, Delivered(s), Tick, goal);
    ReachedByDelivery(t, s, goal);
  }

  /** The link once everything under way has been read. */
  function Delivered(s: Link): Link {
    Step(Step(s, ProviderReads), DaemonReads)
  }

  lemma InvariantDelivered(t: Timing, s: Link)
    requires t.idle && t.RoundTripFits()
    requires Invariant(t, s)
    ensures Invariant(t, Delivered(s))
    ensures Delivered(s).requests == [] && Delivered(s).responses == [] && Delivered(s).now == s.now
    ensures s.iterated == s.now ==> Delivered(s).iterated == s.now
  {
    var s1 := Step(s, ProviderReads);
    if s.requests != [] {
      InvariantStep(t, s, ProviderReads);
    }
    if s1.responses != [] {
      InvariantStep(t, s1, DaemonReads);
    }
  }

  lemma ReachedByDelivery(t: Timing, s: Link, goal: Link -> bool)
    requires CanReach(t, Delivered(s), goal)
    ensures CanReach(t, s, goal)
  {
    var s1 := Step(s, ProviderReads);
    if s1.responses != [] {
      ReachedBy(t, s1, DaemonReads, goal);
    }
    if s.requests != [] {
      ReachedBy(t, s, ProviderReads, goal);
    }
  }

  // ------------------------------------------------------------------ a silent client

  /** The time of the timeout drop in a sequence of iterations that hear nothing, if any. */
  function DropTime(d: DaemonEnd, times: seq<int>): Option<int>
    decreases |times|
  {
    if times == [] then None
    else if DaemonAction(d, QUIET, times[0]) == TimeoutDrop then Some(times[0])
    else DropTime(DaemonIteration(d, QUIET, times[0]), times[1..])
  }

  /** Successive iterations are at most P apart. */
  predicate Paced(prev: int, times: seq<int>, P: nat)
    decreases |times|
  {
    times == [] || (prev <= times[0] <= prev + P && Paced(times[0], times[1..], P))
  }

  function Max(a: int, b: int): int {
    if a > b then a else b
  }

  /** A client that falls silent is dropped only more than 13 s after its last message, and not
      later than max(13 + P, 10 + 2P) s after it; prev is the time of the preceding iteration. */
  lemma {:induction false} SilentClientWindow(d: DaemonEnd, prev: int, times: seq<int>, P: nat)
    requires d.connected && Paced(prev, times, P)
    requires prev - d.last <= 10 || (d.pending && prev - d.last <= Max(13, 10 + P))
    ensures DropTime(d, times).Some? ==> 13 < DropTime(d, times).value - d.last <= Max(13 + P, 10 + 2 * P)
    ensures DropTime(d, times).None? && times != [] ==> times[|times| - 1] - d.last <= Max(13, 10 + P)
    decreases |times|
  {
    if times != [] && DaemonAction(d, QUIET, times[0]) != TimeoutDrop {
      SilentClientWindow(DaemonIteration(d, QUIET, times[0]), times[0], times[1..], P);
    }
  }

  datatype Observation = Observation(poll: Poll, now: int)

  function DaemonAfter(d: DaemonEnd, obs: seq<Observation>): DaemonEnd
    decreases |obs|
  {
    if obs == [] then d else DaemonAfter(DaemonIteration(d, obs[0].poll, obs[0].now), obs[1..])
  }

  /** How many keepalive requests were sent since the last message or timeout drop, n so far. */
  function ProbesOutstanding(d: DaemonEnd, n: nat, obs: seq<Observation>): nat
    decreases |obs|
  {
    if obs == [] then n
    else
      var action := DaemonAction(d, obs[0].poll, obs[0].now);
      var n' := if (d.connected && obs[0].poll.Delivers()) || action == TimeoutDrop then 0
                else if action == Probe then n + 1 else n;
      ProbesOutstanding(DaemonIteration(d, obs[0].poll, obs[0].now), n', obs[1..])
  }

  /** In every run, with reads, failures, drops and new connections in any order, pendingKeepalive_
      is set exactly when one request has gone out since the last message or timeout drop, and
      there are never two. */
  lemma {:induction false} PendingCountsProbes(d: DaemonEnd, n: nat, obs: seq<Observation>)
    requires n == if d.pending then 1 else 0
    ensures ProbesOutstanding(d, n, obs) == if DaemonAfter(d, obs).pending then 1 else 0
    decreases |obs|
  {
    if obs != [] {
      var action := DaemonAction(d, obs[0].poll, obs[0].now);
      var n' := if (d.connected && obs[0].poll.Delivers()) || action == TimeoutDrop then 0
                else if action == Probe then n + 1 else n;
      PendingCountsProbes(DaemonIteration(d, obs[0].poll, obs[0].now), n', obs[1..]);
    }
  }
}
