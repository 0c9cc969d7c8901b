/** Properties of the simulated location manager over whole runs. */
module LocationRuns {
  import opened Locations

  // ------------------------------------------------------------------ report pacing

  /** A wake-up of the manager thread: the tick it sees, and whether a listener is registered. */
  datatype WakeUp = WakeUp(tick: nat, listening: bool)

  /** The ticks of the dispatches of one session, on the given wake-ups. */
  function Dispatches(p: Pace, wakes: seq<WakeUp>): seq<nat>
    decreases |wakes|
  {
    if wakes == [] then []
    else if wakes[0].listening && p.DueAt(wakes[0].tick)
    then [wakes[0].tick] + Dispatches(Pace(p.delta, wakes[0].tick), wakes[1..])
    else Dispatches(p, wakes[1..])
  }

  /** No wake-up sees an earlier tick than the one before it, and the sequence numbers do not wrap. */
  predicate Session(p: Pace, wakes: seq<WakeUp>) {
    && (forall i :: 0 <= i < |wakes| ==> p.seqNo <= wakes[i].tick && wakes[i].tick + p.delta < UINT32)
    && (forall i, j :: 0 <= i < j < |wakes| ==> wakes[i].tick <= wakes[j].tick)
    && p.seqNo + p.delta < UINT32
  }

  /** Each element is at least gap after the one before it, the first after start. */
  predicate Spaced(d: seq<nat>, start: nat, gap: nat) {
    (d != [] ==> d[0] >= start + gap) && forall i :: 0 < i < |d| ==> d[i] >= d[i - 1] + gap
  }

  lemma SpacedCons(first: nat, rest: seq<nat>, start: nat, gap: nat)
    requires first >= start + gap && Spaced(rest, first, gap)
    ensures Spaced([first] + rest, start, gap)
  {
    var d := [first] + rest;
    forall i | 0 < i < |d| ensures d[i] >= d[i - 1] + gap {
      assert d[i] == rest[i - 1];
      assert d[i - 1] == if i == 1 then first else rest[i - 2];
    }
  }

  /** On whichever ticks the manager wakes up, two dispatches are at least delta + 1 ticks apart, and
      so is the first one from the start of the session. */
  lemma {:induction false} DispatchesSpaced(p: Pace, wakes: seq<WakeUp>)
    requires Session(p, wakes)
    ensures Spaced(Dispatches(p, wakes), p.seqNo, p.delta + 1)
    decreases |wakes|
  {
    if wakes != [] {
      var rest := wakes[1..];
      if wakes[0].listening && p.DueAt(wakes[0].tick) {
        var p' := Pace(p.delta, wakes[0].tick);
        DispatchesSpaced(p', rest);
        SpacedCons(wakes[0].tick, Dispatches(p', rest), p.seqNo, p.delta + 1);
      } else {
        DispatchesSpaced(p, rest);
      }
    }
  }

  lemma DispatchesCons(p: Pace, wake: WakeUp, rest: seq<WakeUp>)
    ensures Dispatches(p, [wake] + rest)
         == if wake.listening && p.DueAt(wake.tick) then [wake.tick] + Dispatches(Pace(p.delta, wake.tick), rest)
            else Dispatches(p, rest)
  {
    assert ([wake] + rest)[1..] == rest;
  }

  /** n wake-ups on successive ticks, a listener always being there. */
  function EveryTick(tick: nat, n: nat): seq<WakeUp>
    decreases n
  {
    if n == 0 then [] else [WakeUp(tick, true)] + EveryTick(tick + 1, n - 1)
  }

  /** The number of blocks of k ticks that n ticks begin. */
  function Blocks(n: nat, k: nat): nat
    requires k > 0
  {
    if n == 0 then 0 else if n <= k then 1 else 1 + Blocks(n - k, k)
  }

  /** Blocks(n, k) is n / k rounded up. */
  lemma {:induction false} BlocksRoundUp(n: nat, k: nat)
    requires k > 0
    ensures n <= Blocks(n, k) * k < n + k
    decreases n
  {
    if n > k {
      var b := Blocks(n - k, k);
      BlocksRoundUp(n - k, k);
      assert (1 + b) * k == k + b * k;
    }
  }

  lemma {:induction false} NothingDue(p: Pace, tick: nat, quiet: nat, n: nat)
    requires p.seqNo <= tick && quiet <= n && p.seqNo + p.delta < UINT32
    requires tick + quiet <= p.seqNo + p.delta + 1
    ensures Dispatches(p, EveryTick(tick, n)) == Dispatches(p, EveryTick(tick + quiet, n - quiet))
    decreases quiet
  {
    if quiet > 0 {
      DispatchesCons(p, WakeUp(tick, true), EveryTick(tick + 1, n - 1));
      NothingDue(p, tick + 1, quiet - 1, n - 1);
    }
  }

  /** After a dispatch nothing is due for delta ticks, if so many are left. */
  lemma FirstDispatch(p: Pace, tick: nat, n: nat, quiet: nat)
    requires p.seqNo + p.delta < tick && tick + n + p.delta < UINT32
    requires quiet < n && quiet <= p.delta
    ensures Dispatches(p, EveryTick(tick, n))
         == [tick] + Dispatches(Pace(p.delta, tick), EveryTick(tick + 1 + quiet, n - 1 - quiet))
  {
    DispatchesCons(p, WakeUp(tick, true), EveryTick(tick + 1, n - 1));
    NothingDue(Pace(p.delta, tick), tick + 1, quiet, n - 1);
  }

  /** Waking on each of n ticks, the first of which brings a dispatch: dispatches are exactly
      delta + 1 ticks apart, and there are as many as blocks of delta + 1 ticks cover the n. */
  lemma {:induction false} ExactPace(p: Pace, tick: nat, n: nat)
    requires p.seqNo + p.delta < tick && tick + n + p.delta < UINT32
    ensures var d := Dispatches(p, EveryTick(tick, n));
      && |d| == Blocks(n, p.delta + 1)
      && (n > 0 ==> d[0] == tick)
      && (forall i :: 0 < i < |d| ==> d[i] == d[i - 1] + p.delta + 1)
    decreases n
  {
    if n > 0 {
      var quiet := if n - 1 < p.delta then n - 1 else p.delta;
      FirstDispatch(p, tick, n, quiet);
      if n - 1 > quiet {
        ExactPace(Pace(p.delta, tick), tick + 1 + quiet, n - 1 - quiet);
      }
    }
  }

  // ------------------------------------------------------------------ the listener registry

  datatype Registry = Registry(m: Manager, alive: set<Listener>, created: set<Listener>)

  datatype RegistryEvent =
    | Create(l: Listener)
    | Expire(l: Listener)
    | RegisterEx(l: Listener)
    | DeRegisterEx(l: Listener)
    | WakeAt(tick: nat)
    | StartAt(kind: ReportType, intervalInMs: nat)
    | Stop

  /** A new object is none of those there were before. */
  predicate Enabled(r: Registry, e: RegistryEvent) {
    match e
    case Create(l) => l !in r.created
    case RegisterEx(l) => l in r.created
    case StartAt(kind, _) => kind != NoReports
    case _ => true
  }

  function Step(r: Registry, e: RegistryEvent): Registry {
    match e
    case Create(l) => Registry(r.m, r.alive + {l}, r.created + {l})
    case Expire(l) => r.(alive := r.alive - {l})
    case RegisterEx(l) => r.(m := Register(r.m, l, r.alive))
    case DeRegisterEx(l) => r.(m := Deregister(r.m, l, r.alive))
    case WakeAt(tick) => r.(m := Wake(r.m, tick, r.alive))
    case StartAt(kind, intervalInMs) => r.(m := StartReports(r.m, kind, intervalInMs))
    case Stop => r.(m := StopReporting(r.m))
  }

  /** What a client sees: the live registered listeners, in order of registration. */
  function Live(r: Registry): seq<Listener> {
    Keep(r.m.listeners, r.alive)
  }

  function Without(s: seq<Listener>, l: Listener): seq<Listener> {
    Keep(s, (set x | x in s) - {l})
  }

  /** The registry as a plain duplicate-free list of live listeners. */
  function AbstractStep(live: seq<Listener>, alive: set<Listener>, e: RegistryEvent): seq<Listener> {
    match e
    case Expire(l) => Without(live, l)
    case RegisterEx(l) => if l in alive && l !in live then live + [l] else live
    case DeRegisterEx(l) => if l in alive then Without(live, l) else live
    case _ => live
  }

  predicate NoRepeat(s: seq<Listener>) {
    forall i, j :: 0 <= i < j < |s| ==> s[i] != s[j]
  }

  predicate Invariant(r: Registry) {
    && NoRepeat(r.m.listeners)
    && r.alive <= r.created
    && (forall l :: l in r.m.listeners ==> l in r.created)
  }

  lemma {:induction false} KeepFacts(s: seq<Listener>, alive: set<Listener>)
    ensures forall l :: l in Keep(s, alive) <==> l in s && l in alive
    ensures NoRepeat(s) ==> NoRepeat(Keep(s, alive))
    decreases |s|
  {
    if s != [] {
      KeepFacts(s[1..], alive);
      assert s == [s[0]] + s[1..];
    }
  }

  lemma {:induction false} KeepKeep(s: seq<Listener>, a: set<Listener>, b: set<Listener>)
    ensures Keep(Keep(s, a), b) == Keep(s, a * b)
    decreases |s|
  {
    if s != [] {
      KeepKeep(s[1..], a, b);
      assert ([s[0]] + Keep(s[1..], a))[1..] == Keep(s[1..], a);
    }
  }

  lemma {:induction false} KeepSame(s: seq<Listener>, a: set<Listener>, b: set<Listener>)
    requires forall l :: l in s ==> (l in a <==> l in b)
    ensures Keep(s, a) == Keep(s, b)
    decreases |s|
  {
    if s != [] {
      KeepSame(s[1..], a, b);
    }
  }

  lemma {:induction false} KeepAll(s: seq<Listener>, a: set<Listener>)
    requires forall l :: l in s ==> l in a
    ensures Keep(s, a) == s
    decreases |s|
  {
    if s != [] {
      KeepAll(s[1..], a);
    }
  }

  lemma {:induction false} KeepAppend(s: seq<Listener>, alive: set<Listener>, l: Listener)
    ensures Keep(s + [l], alive) == if l in alive then Keep(s, alive) + [l] else Keep(s, alive)
    decreases |s|
  {
    if s == [] {
      assert [] + [l] == [l];
    } else {
      assert (s + [l])[1..] == s[1..] + [l];
      KeepAppend(s[1..], alive, l);
    }
  }

  /** Taking a listener out before or after dropping the expired ones is the same. */
  lemma KeepWithout(s: seq<Listener>, alive: set<Listener>, l: Listener)
    ensures Keep(s, alive - {l}) == Without(Keep(s, alive), l) == Keep(Without(s, l), alive)
  {
    var inS, inKept := (set x | x in s) - {l}, (set x | x in Keep(s, alive)) - {l};
    KeepFacts(s, alive);
    KeepKeep(s, alive, inKept);
    KeepSame(s, alive * inKept, alive - {l});
    KeepKeep(s, inS, alive);
    KeepSame(s, inS * alive, alive - {l});
  }

  /** With no repeated entry, removing the first is removing all. */
  lemma {:induction false} RemoveFirstRemovesAll(s: seq<Listener>, l: Listener, others: set<Listener>)
    requires NoRepeat(s) && forall x :: x in s ==> (x in others <==> x != l)
    ensures RemoveFirst(s, l) == Keep(s, others)
    decreases |s|
  {
    if s != [] {
      if s[0] == l {
        KeepAll(s[1..], others);
      } else {
        RemoveFirstRemovesAll(s[1..], l, others);
      }
    }
  }

  /** One event on the registry: the concrete list of weak references behaves like the abstract list;
      it never holds a listener twice; a deregistration succeeds exactly for a live registered
      listener and leaves no copy; and a dispatch calls each live listener exactly once, in order of
      registration, and drops exactly the expired ones. */
  lemma RegistryRefines(r: Registry, e: RegistryEvent)
    requires Invariant(r) && Enabled(r, e)
    ensures Invariant(Step(r, e))
    ensures Live(Step(r, e)) == AbstractStep(Live(r), r.alive, e)
    ensures NoRepeat(Live(r))
    ensures e.DeRegisterEx? ==> (e.l in r.alive && e.l in r.m.listeners <==> e.l in Live(r))
    ensures e.DeRegisterEx? && e.l in r.alive ==> e.l !in Step(r, e).m.listeners
    ensures e.WakeAt? && r.m.DispatchesAt(e.tick) ==>
      var before, after := r.m.delivered, Step(r, e).m.delivered;
      && Step(r, e).m.listeners == Live(r)
      && |after| == |before| + |Live(r)| && before <= after
      && forall i :: 0 <= i < |Live(r)| ==>
           after[|before| + i].listener == Live(r)[i]
           && after[|before| + i].kind == r.m.kind && after[|before| + i].tick == e.tick
  {
    var s := r.m.listeners;
    KeepFacts(s, r.alive);
    match e
    case Create(l) => KeepSame(s, r.alive, r.alive + {l});
    case Expire(l) => KeepWithout(s, r.alive, l);
    case RegisterEx(l) =>
      KeepAppend(s, r.alive, l);
    case DeRegisterEx(l) =>
      RemoveFirstRemovesAll(s, l, (set x | x in s) - {l});
      KeepFacts(s, (set x | x in s) - {l});
      KeepWithout(s, r.alive, l);
    case WakeAt(tick) =>
      KeepKeep(s, r.alive, r.alive);
      KeepSame(s, r.alive * r.alive, r.alive);
    case StartAt(kind, intervalInMs) =>
    case Stop =>
  }

  predicate Run(r: Registry, es: seq<RegistryEvent>)
    decreases |es|
  {
    es == [] || (Enabled(r, es[0]) && Run(Step(r, es[0]), es[1..]))
  }

  function After(r: Registry, es: seq<RegistryEvent>): Registry
    decreases |es|
  {
    if es == [] then r else After(Step(r, es[0]), es[1..])
  }

  /** The abstract list after the same events. */
  function AbstractAfter(live: seq<Listener>, r: Registry, es: seq<RegistryEvent>): seq<Listener>
    decreases |es|
  {
    if es == [] then live else AbstractAfter(AbstractStep(live, r.alive, es[0]), Step(r, es[0]), es[1..])
  }

  /** Over every run the registry refines the abstract list of live listeners. */
  lemma {:induction false} RegistryRunRefines(r: Registry, es: seq<RegistryEvent>)
    requires Invariant(r) && Run(r, es)
    ensures Invariant(After(r, es))
    ensures Live(After(r, es)) == AbstractAfter(Live(r), r, es)
    decreases |es|
  {
    if es != [] {
      RegistryRefines(r, es[0]);
      RegistryRunRefines(Step(r, es[0]), es[1..]);
    }
  }

  /** The wake-ups in a run, and the ticks at which reports were dispatched in it. */
  function WakeUps(r: Registry, es: seq<RegistryEvent>): seq<WakeUp>
    decreases |es|
  {
    if es == [] then []
    else if es[0].WakeAt? then [WakeUp(es[0].tick, r.m.listeners != [])] + WakeUps(Step(r, es[0]), es[1..])
    else WakeUps(Step(r, es[0]), es[1..])
  }

  function DispatchTicks(r: Registry, es: seq<RegistryEvent>): seq<nat>
    decreases |es|
  {
    if es == [] then []
    else if es[0].WakeAt? && r.m.DispatchesAt(es[0].tick) then [es[0].tick] + DispatchTicks(Step(r, es[0]), es[1..])
    else DispatchTicks(Step(r, es[0]), es[1..])
  }

  predicate NoStart(es: seq<RegistryEvent>) {
    forall e :: e in es ==> !e.StartAt?
  }

  predicate NoStop(es: seq<RegistryEvent>) {
    forall e :: e in es ==> !e.Stop?
  }

  /** Once reports are stopped, nothing is dispatched until they are started again. */
  lemma {:induction false} StoppedDispatchesNothing(r: Registry, es: seq<RegistryEvent>)
    requires r.m.kind == NoReports && NoStart(es)
    ensures DispatchTicks(r, es) == []
    decreases |es|
  {
    if es != [] {
      StoppedDispatchesNothing(Step(r, es[0]), es[1..]);
    }
  }

  /** While a session lasts, whatever happens to the registry, reports are dispatched when its pace
      says so on the wake-ups of the run; a stop cuts them off. */
  lemma {:induction false} SessionFollowsPace(r: Registry, es: seq<RegistryEvent>)
    requires r.m.kind != NoReports && r.m.kind in r.m.paces && NoStart(es)
    ensures DispatchTicks(r, es) <= Dispatches(r.m.paces[r.m.kind], WakeUps(r, es))
    ensures NoStop(es) ==> DispatchTicks(r, es) == Dispatches(r.m.paces[r.m.kind], WakeUps(r, es))
    decreases |es|
  {
    if es != [] {
      var r' := Step(r, es[0]);
      if es[0].Stop? {
        StoppedDispatchesNothing(r', es[1..]);
        assert es[0] in es;
      } else {
        SessionFollowsPace(r', es[1..]);
        if es[0].WakeAt? {
          var wake := WakeUp(es[0].tick, r.m.listeners != []);
          assert ([wake] + WakeUps(r', es[1..]))[1..] == WakeUps(r', es[1..]);
        }
      }
    }
  }

  /** Within one start session, with listeners coming, going and expiring, on whichever ticks the manager
      wakes up and whenever the session is stopped, reports are dispatched at least delta + 1 ticks
      apart. */
  lemma ReportsPaced(r: Registry, es: seq<RegistryEvent>)
    requires r.m.kind != NoReports && r.m.kind in r.m.paces && NoStart(es)
    requires Session(r.m.paces[r.m.kind], WakeUps(r, es))
    ensures Spaced(DispatchTicks(r, es), r.m.paces[r.m.kind].seqNo, r.m.paces[r.m.kind].delta + 1)
  {
    var p := r.m.paces[r.m.kind];
    SessionFollowsPace(r, es);
    DispatchesSpaced(p, WakeUps(r, es));
    var d, all := DispatchTicks(r, es), Dispatches(p, WakeUps(r, es));
    assert forall i :: 0 <= i < |d| ==> d[i] == all[i];
  }

  /** After a start with an interval of so many milliseconds, reports come more than that long apart,
      a tick being 100 ms. */
  lemma ReportsKeepTheInterval(r: Registry, kind: ReportType, intervalInMs: nat, es: seq<RegistryEvent>)
    requires kind != NoReports && NoStart(es)
    requires var started := Step(r, StartAt(kind, intervalInMs));
      Session(started.m.paces[kind], WakeUps(started, es))
    ensures var d := DispatchTicks(Step(r, StartAt(kind, intervalInMs)), es);
      && Spaced(d, 0, Delta(intervalInMs) + 1)
      && forall i :: 0 < i < |d| ==> (d[i] - d[i - 1]) * 100 > intervalInMs
  {
    ReportsPaced(Step(r, StartAt(kind, intervalInMs)), es);
  }

  /** The ticks in d begin with the first one, are gap apart, and as many as n / gap rounded up. */
  predicate ExactlySpaced(d: seq<nat>, first: nat, gap: nat, n: nat) {
    && n <= |d| * gap < n + gap
    && (n > 0 ==> d != [] && d[0] == first)
    && (forall i :: 0 < i < |d| ==> d[i] == d[i - 1] + gap)
  }

  lemma ExactCount(p: Pace, tick: nat, n: nat)
    requires p.seqNo + p.delta < tick && tick + n + p.delta < UINT32
    ensures ExactlySpaced(Dispatches(p, EveryTick(tick, n)), tick, p.delta + 1, n)
  {
    ExactPace(p, tick, n);
    BlocksRoundUp(n, p.delta + 1);
  }

  /** If moreover the manager wakes up on each of n ticks, the first of which is due, and always finds
      a listener, the reports are exactly delta + 1 ticks apart and n / (delta + 1) in number, rounded
      up. */
  lemma ReportsExactlyPaced(r: Registry, es: seq<RegistryEvent>, tick: nat, n: nat)
    requires r.m.kind != NoReports && r.m.kind in r.m.paces && NoStart(es) && NoStop(es)
    requires WakeUps(r, es) == EveryTick(tick, n)
    requires var p := r.m.paces[r.m.kind]; p.seqNo + p.delta < tick && tick + n + p.delta < UINT32
    ensures ExactlySpaced(DispatchTicks(r, es), tick, r.m.paces[r.m.kind].delta + 1, n)
  {
    var p := r.m.paces[r.m.kind];
    assert DispatchTicks(r, es) == Dispatches(p, EveryTick(tick, n)) by {
      SessionFollowsPace(r, es);
    }
    ExactCount(p, tick, n);
  }

  /** After a start with any interval, waking on every tick from the first on and always finding a
      listener, the manager dispatches a report on every d-th tick, where d ticks of 100 ms are more than
      the interval, which counts as at least 100 ms, and at most 100 ms more. */
  lemma ReportsAtTheInterval(r: Registry, kind: ReportType, intervalInMs: nat, es: seq<RegistryEvent>, n: nat)
    returns (d: nat)
    requires kind != NoReports && NoStart(es) && NoStop(es)
    requires var started := Step(r, StartAt(kind, intervalInMs)); WakeUps(started, es) == EveryTick(1, n)
    requires n + 2 * intervalInMs + 200 < UINT32
    ensures var asked := if intervalInMs < 100 then 100 else intervalInMs; asked < d * 100 <= asked + 100
    ensures var ticks := DispatchTicks(Step(r, StartAt(kind, intervalInMs)), es);
      && |ticks| * d <= n < |ticks| * d + d
      && (ticks != [] ==> ticks[0] == d)
      && (forall i :: 0 < i < |ticks| ==> ticks[i] == ticks[i - 1] + d)
  {
    var started := Step(r, StartAt(kind, intervalInMs));
    d := Delta(intervalInMs) + 1;
    assert DispatchTicks(started, es) == Dispatches(Pace(d - 1, 0), EveryTick(1, n)) by {
      SessionFollowsPace(started, es);
    }
    EveryDthTick(d, n);
  }

  lemma EveryDthTick(d: nat, n: nat)
    requires d > 0 && n + 2 * d < UINT32
    ensures var ticks := Dispatches(Pace(d - 1, 0), EveryTick(1, n));
      && |ticks| * d <= n < |ticks| * d + d
      && (ticks != [] ==> ticks[0] == d)
      && (forall i :: 0 < i < |ticks| ==> ticks[i] == ticks[i - 1] + d)
  {
    var p, quiet := Pace(d - 1, 0), if n < d then n else d - 1;
    NothingDue(p, 1, quiet, n);
    if n >= d {
      ExactCount(p, d, n - quiet);
    }
  }

  // ------------------------------------------------------------------ single-shot requests

  datatype SingleShotEvent = Get(cb: Callback) | Cancel | WorkerRuns

  predicate ShotEnabled(s: SingleShot, e: SingleShotEvent, energy: bool) {
    (e.WorkerRuns? ==> s.workers > 0) && (energy ==> !e.Cancel?)
  }

  function ShotStep(s: SingleShot, e: SingleShotEvent, energy: bool): SingleShot
    requires ShotEnabled(s, e, energy)
  {
    match e
    case Get(cb) => if energy then RequestEnergy(s, cb) else GetTerrestrial(s, cb)
    case Cancel => CancelTerrestrial(s)
    case WorkerRuns => if energy then EnergyWorker(s) else TerrestrialWorker(s)
  }

  predicate ShotRun(s: SingleShot, es: seq<SingleShotEvent>, energy: bool)
    decreases |es|
  {
    es == [] || (ShotEnabled(s, es[0], energy) && ShotRun(ShotStep(s, es[0], energy), es[1..], energy))
  }

  function ShotAfter(s: SingleShot, es: seq<SingleShotEvent>, energy: bool): SingleShot
    requires ShotRun(s, es, energy)
    decreases |es|
  {
    if es == [] then s else ShotAfter(ShotStep(s, es[0], energy), es[1..], energy)
  }

  /** Every callback answers the request made last, with no cancel and no other callback between the
      two: so there are never more callbacks than requests, and none after a cancel. */
  predicate CallsAnswerLatest(history: seq<Incident>) {
    forall i :: 0 <= i < |history| && history[i].Called? ==> i > 0 && history[i - 1] == Requested(history[i].cb)
  }

  predicate RequestLast(history: seq<Incident>) {
    history != [] && history[|history| - 1].Requested?
  }

  function Requests(history: seq<Incident>): nat {
    if history == [] then 0
    else Requests(history[..|history| - 1]) + if history[|history| - 1].Requested? then 1 else 0
  }

  function Calls(history: seq<Incident>): nat {
    if history == [] then 0
    else Calls(history[..|history| - 1]) + if history[|history| - 1].Called? then 1 else 0
  }

  /** The requests after which another request or a cancel came next: nothing answers them. */
  function Dropped(history: seq<Incident>): nat {
    if |history| < 2 then 0
    else Dropped(history[..|history| - 1])
         + if history[|history| - 2].Requested? && !history[|history| - 1].Called? then 1 else 0
  }

  predicate ShotInvariant(s: SingleShot, energy: bool) {
    && Requests(s.history) == Calls(s.history) + Dropped(s.history) + (if s.active then 1 else 0)
    && CallsAnswerLatest(s.history)
    && (s.active <==> RequestLast(s.history))
    && (s.active ==> s.history[|s.history| - 1] == Requested(s.stored))
    && (s.active ==> s.workers > 0)
    && (energy ==> s.workers == if s.active then 1 else 0)
  }

  /** One more incident keeps the properties of a history, if a call answers the last request. */
  lemma HistoryGrows(history: seq<Incident>, incident: Incident)
    requires CallsAnswerLatest(history)
    requires incident.Called? ==> history != [] && history[|history| - 1] == Requested(incident.cb)
    ensures CallsAnswerLatest(history + [incident])
    ensures Calls(history + [incident]) == Calls(history) + if incident.Called? then 1 else 0
    ensures Requests(history + [incident]) == Requests(history) + if incident.Requested? then 1 else 0
    ensures Dropped(history + [incident])
         == Dropped(history) + if RequestLast(history) && !incident.Called? then 1 else 0
  {
    var h := history + [incident];
    assert h[..|h| - 1] == history && h[|h| - 1] == incident;
    assert history != [] ==> h[|h| - 2] == history[|history| - 1];
    assert CallsAnswerLatest(h) by {
      forall i | 0 <= i < |h| && h[i].Called? ensures i > 0 && h[i - 1] == Requested(h[i].cb) {
        if i < |history| {
          assert history[i].Called? && h[i - 1] == history[i - 1];
        }
      }
    }
  }

  lemma GetKeeps(s: SingleShot, cb: Callback, energy: bool)
    requires ShotInvariant(s, energy)
    ensures ShotInvariant(ShotStep(s, Get(cb), energy), energy)
  {
    HistoryGrows(s.history, Requested(cb));
  }

  lemma CancelKeeps(s: SingleShot)
    requires ShotInvariant(s, false)
    ensures ShotInvariant(CancelTerrestrial(s), false)
  {
    HistoryGrows(s.history, Cancelled);
  }

  lemma WorkerKeeps(s: SingleShot, energy: bool)
    requires ShotInvariant(s, energy) && s.workers > 0
    ensures ShotInvariant(ShotStep(s, WorkerRuns, energy), energy)
  {
    if s.active {
      HistoryGrows(s.history, Called(s.stored));
    }
  }

  lemma ShotInvariantStep(s: SingleShot, e: SingleShotEvent, energy: bool)
    requires ShotInvariant(s, energy) && ShotEnabled(s, e, energy)
    ensures ShotInvariant(ShotStep(s, e, energy), energy)
  {
    match e
    case Get(cb) => GetKeeps(s, cb, energy);
    case Cancel => CancelKeeps(s);
    case WorkerRuns => WorkerKeeps(s, energy);
  }

  lemma {:induction false} ShotInvariantRun(s: SingleShot, es: seq<SingleShotEvent>, energy: bool)
    requires ShotInvariant(s, energy) && ShotRun(s, es, energy)
    ensures ShotInvariant(ShotAfter(s, es, energy), energy)
    decreases |es|
  {
    if es != [] {
      ShotInvariantStep(s, es[0], energy);
      ShotInvariantRun(ShotStep(s, es[0], energy), es[1..], energy);
    }
  }

  /** Over every run, terrestrial requests: active exactly when a request came last, and then some
      worker is still to run; and once the workers have run, each request was answered, except those
      followed by another request or a cancel. */
  lemma TerrestrialRequestsAnsweredOnce(es: seq<SingleShotEvent>)
    requires ShotRun(UNUSED, es, false)
    ensures var s := ShotAfter(UNUSED, es, false);
      && CallsAnswerLatest(s.history)
      && (s.active <==> RequestLast(s.history))
      && (s.active ==> s.workers > 0)
      && Requests(s.history) == Calls(s.history) + Dropped(s.history) + (if s.active then 1 else 0)
  {
    ShotInvariantRun(UNUSED, es, false);
  }

  /** A second request while one is pending does not fail: it takes over, is answered by the worker of
      the first, and the first is never answered. */
  lemma SecondRequestTakesOver(first: Callback, second: Callback)
    ensures var es := [Get(first), Get(second), WorkerRuns, WorkerRuns];
      && ShotRun(UNUSED, es, false)
      && ShotAfter(UNUSED, es, false)
         == SingleShot(false, second, 0, [Requested(first), Requested(second), Called(second)])
  {
    var e1, e2, w := Get(first), Get(second), WorkerRuns;
    var s1 := ShotStep(UNUSED, e1, false);
    var s2 := ShotStep(s1, e2, false);
    var s3 := ShotStep(s2, w, false);
    var s4 := ShotStep(s3, w, false);
    ShotAfterOne(s3, w, []);
    ShotAfterOne(s2, w, [w]);
    ShotAfterOne(s1, e2, [w, w]);
    ShotAfterOne(UNUSED, e1, [e2, w, w]);
    assert [w] + [] == [w] && [w] + [w] == [w, w] && [e2] + [w, w] == [e2, w, w] && [e1] + [e2, w, w] == [e1, e2, w, w];
  }

  lemma ShotAfterOne(s: SingleShot, e: SingleShotEvent, es: seq<SingleShotEvent>)
    requires ShotEnabled(s, e, false) && ShotRun(ShotStep(s, e, false), es, false)
    ensures ShotRun(s, [e] + es, false)
    ensures ShotAfter(s, [e] + es, false) == ShotAfter(ShotStep(s, e, false), es, false)
  {
    assert ([e] + es)[1..] == es;
  }

  /** Over every run, energy requests: the lock is held exactly while one worker is pending, there is
      never a second one, each worker serves the request made last, and only requests that another
      one followed stay unanswered. */
  lemma EnergyRequestsAnsweredOnce(es: seq<SingleShotEvent>)
    requires ShotRun(UNUSED, es, true)
    ensures var s := ShotAfter(UNUSED, es, true);
      && CallsAnswerLatest(s.history)
      && s.workers == (if s.active then 1 else 0)
      && Requests(s.history) == Calls(s.history) + Dropped(s.history) + s.workers
  {
    ShotInvariantRun(UNUSED, es, true);
  }
}
