/** The simulated location manager: reports paced by a tick source, listeners held by weak reference
    and pruned while dispatching, and two requests answered once by a detached worker. */
module Locations {
  const UINT32 := 0x1_0000_0000

  /** A listener object. Identities are not reused, so an expired one never comes back. */
  type Listener = nat

  datatype ReportType = NoReports | Basic | Detailed | DetailedEngine

  /** The pace of one report type: its interval in ticks and the tick of its last dispatch. */
  datatype Pace = Pace(delta: nat, seqNo: nat)
  {
    /** The comparison is made in uint32. */
    predicate DueAt(tick: nat) {
      tick > (seqNo + delta) % UINT32
    }
  }

  datatype Delivery = Delivery(listener: Listener, kind: ReportType, tick: nat)

  datatype Manager = Manager(
    kind: ReportType,
    paces: map<ReportType, Pace>,
    listeners: seq<Listener>,
    delivered: seq<Delivery>)
  {
    predicate DispatchesAt(tick: nat) {
      listeners != [] && kind != NoReports && kind in paces && paces[kind].DueAt(tick)
    }
  }

  const IDLE :=
    Manager(NoReports, map[Basic := Pace(0, 0), Detailed := Pace(0, 0), DetailedEngine := Pace(0, 0)], [], [])

  /** The interval in ticks of 100 ms; an interval below 100 ms counts as 100 ms. */
  function Delta(intervalInMs: nat): nat {
    (if intervalInMs < 100 then 100 else intervalInMs) / 100
  }

  function StartReports(m: Manager, kind: ReportType, intervalInMs: nat): Manager {
    m.(kind := kind, paces := m.paces[kind := Pace(Delta(intervalInMs), 0)])
  }

  function StopReporting(m: Manager): Manager {
    m.(kind := NoReports)
  }

  /** The listeners that are alive, in order. */
  function Keep(listeners: seq<Listener>, alive: set<Listener>): seq<Listener> {
    if listeners == [] then []
    else if listeners[0] in alive then [listeners[0]] + Keep(listeners[1..], alive)
    else Keep(listeners[1..], alive)
  }

  function DeliverTo(listeners: seq<Listener>, kind: ReportType, tick: nat): seq<Delivery> {
    seq(|listeners|, i requires 0 <= i < |listeners| => Delivery(listeners[i], kind, tick))
  }

  /** One wake-up of the manager thread: a due report goes to each live listener once, in order, and
      the expired ones are forgotten. */
  function Wake(m: Manager, tick: nat, alive: set<Listener>): Manager {
    if !m.DispatchesAt(tick) then m
    else
      Manager(m.kind, m.paces[m.kind := Pace(m.paces[m.kind].delta, tick)],
              Keep(m.listeners, alive), m.delivered + DeliverTo(Keep(m.listeners, alive), m.kind, tick))
  }

  function Register(m: Manager, l: Listener, alive: set<Listener>): Manager {
    if l in alive && l !in m.listeners then m.(listeners := m.listeners + [l]) else m
  }

  /** Removing the first entry for a listener. */
  function RemoveFirst(listeners: seq<Listener>, l: Listener): seq<Listener> {
    if listeners == [] then []
    else if listeners[0] == l then listeners[1..]
    else [listeners[0]] + RemoveFirst(listeners[1..], l)
  }

  function Deregister(m: Manager, l: Listener, alive: set<Listener>): Manager {
    if l in alive then m.(listeners := RemoveFirst(m.listeners, l)) else m
  }

  /** The tick source: every cycle adds one to each sequence number. */
  class ReportHandler {
    var br: nat
    var dr: nat
    var der: nat

    constructor ()
      ensures br == dr == der == 0
    {
      br, dr, der := 0, 0, 0;
    }

    method Cycle()
      modifies this
      ensures br == (old(br) + 1) % UINT32 && dr == (old(dr) + 1) % UINT32 && der == (old(der) + 1) % UINT32
    {
      br := (br + 1) % UINT32;
      dr := (dr + 1) % UINT32;
      der := (der + 1) % UINT32;
    }
  }

  class LocationManagerStub {
    var kind: ReportType
    var brSeqDelta: nat
    var brSeqNo: nat
    var drSeqDelta: nat
    var drSeqNo: nat
    var derSeqDelta: nat
    var derSeqNo: nat
    var listeners: seq<Listener>
    var delivered: seq<Delivery>

    constructor ()
      ensures State() == IDLE
    {
      kind, listeners, delivered := NoReports, [], [];
      brSeqDelta, brSeqNo, drSeqDelta, drSeqNo, derSeqDelta, derSeqNo := 0, 0, 0, 0, 0, 0;
    }

    function State(): Manager
      reads this
    {
      Manager(kind,
              map[Basic := Pace(brSeqDelta, brSeqNo), Detailed := Pace(drSeqDelta, drSeqNo),
                  DetailedEngine := Pace(derSeqDelta, derSeqNo)],
              listeners, delivered)
    }

    method StartBasicReports(intervalInMs: nat)
      modifies this
      ensures State() == StartReports(old(State()), Basic, intervalInMs)
    {
      var interval := intervalInMs;
      if interval < 100 {
        interval := 100;
      }
      brSeqDelta := interval / 100;
      brSeqNo := 0;
      kind := Basic;
    }

    method StartDetailedReports(intervalInMs: nat)
      modifies this
      ensures State() == StartReports(old(State()), Detailed, intervalInMs)
    {
      var interval := intervalInMs;
      if interval < 100 {
        interval := 100;
      }
      drSeqDelta := interval / 100;
      drSeqNo := 0;
      kind := Detailed;
    }

    method StartDetailedEngineReports(intervalInMs: nat)
      modifies this
      ensures State() == StartReports(old(State()), DetailedEngine, intervalInMs)
    {
      var interval := intervalInMs;
      if interval < 100 {
        interval := 100;
      }
      derSeqDelta := interval / 100;
      derSeqNo := 0;
      kind := DetailedEngine;
    }

    method StopReports()
      modifies this
      ensures State() == StopReporting(old(State()))
    {
      kind := NoReports;
    }

    method InvokeBasicReport(tick: nat, alive: set<Listener>)
      requires listeners != [] && kind == Basic
      modifies this
      ensures State() == Wake(old(State()), tick, alive)
    {
      if tick > (brSeqNo + brSeqDelta) % UINT32 {
        Dispatch(tick, alive);
        brSeqNo := tick;
      }
    }

    method InvokeDetailedReport(tick: nat, alive: set<Listener>)
      requires listeners != [] && kind == Detailed
      modifies this
      ensures State() == Wake(old(State()), tick, alive)
    {
      if tick > (drSeqNo + drSeqDelta) % UINT32 {
        Dispatch(tick, alive);
        drSeqNo := tick;
      }
    }

    method InvokeDetailedEngineReport(tick: nat, alive: set<Listener>)
      requires listeners != [] && kind == DetailedEngine
      modifies this
      ensures State() == Wake(old(State()), tick, alive)
    {
      if tick > (derSeqNo + derSeqDelta) % UINT32 {
        Dispatch(tick, alive);
        derSeqNo := tick;
      }
    }

    /** The dispatch loop: call the live listeners, erase the others where they stand. */
    method Dispatch(tick: nat, alive: set<Listener>)
      modifies this`listeners, this`delivered
      ensures listeners == Keep(old(listeners), alive)
      ensures delivered == old(delivered) + DeliverTo(Keep(old(listeners), alive), kind, tick)
    {
      var i := 0;
      while i < |listeners|
        invariant i <= |listeners|
        invariant Keep(old(listeners), alive) == listeners[..i] + Keep(listeners[i..], alive)
        invariant delivered == old(delivered) + DeliverTo(listeners[..i], kind, tick)
        decreases |listeners| - i
      {
        ghost var done, rest := listeners[..i], listeners[i..];
        var l := listeners[i];
        assert rest[0] == l && rest[1..] == listeners[i + 1..];
        if l in alive {
          delivered := delivered + [Delivery(l, kind, tick)];
          i := i + 1;
          assert listeners[..i] == done + [l];
        } else {
          listeners := listeners[..i] + listeners[i + 1..];
          assert listeners[..i] == done && listeners[i..] == rest[1..];
        }
      }
      assert listeners[..i] == listeners && listeners[i..] == [];
    }

    /** One turn of the loop in managerThread. */
    method ManagerWake(handler: ReportHandler, alive: set<Listener>)
      requires handler.br == handler.dr == handler.der
      modifies this
      ensures State() == Wake(old(State()), handler.br, alive)
    {
      if |listeners| != 0 {
        if kind == Basic {
          InvokeBasicReport(handler.br, alive);
        } else if kind == Detailed {
          InvokeDetailedReport(handler.dr, alive);
        } else if kind == DetailedEngine {
          InvokeDetailedEngineReport(handler.der, alive);
        }
      }
    }

    method RegisterListenerEx(l: Listener, alive: set<Listener>)
      modifies this`listeners
      ensures State() == Register(old(State()), l, alive)
    {
      if l in alive {
        var existing := false;
        var i := 0;
        while i < |listeners|
          modifies {}
          invariant i <= |listeners| && !existing && l !in listeners[..i]
        {
          if l == listeners[i] {
            existing := true;
            break;
          }
          i := i + 1;
        }
        if !existing {
          listeners := listeners + [l];
        }
      }
    }

    method DeRegisterListenerEx(l: Listener, alive: set<Listener>) returns (success: bool)
      modifies this`listeners
      ensures State() == Deregister(old(State()), l, alive)
      ensures success <==> l in alive && l in old(listeners)
    {
      success := false;
      if l in alive {
        var i := 0;
        while i < |listeners|
          invariant i <= |listeners| && listeners == old(listeners) && l !in listeners[..i]
          invariant RemoveFirst(listeners, l) == listeners[..i] + RemoveFirst(listeners[i..], l)
        {
          if l == listeners[i] {
            listeners := listeners[..i] + listeners[i + 1..];
            success := true;
            break;
          }
          i := i + 1;
        }
      }
    }
  }

  // ------------------------------------------------------------------ single-shot requests

  type Callback = nat

  /** What has happened to a single-shot request interface, oldest first. */
  datatype Incident = Requested(cb: Callback) | Cancelled | Called(cb: Callback)

  /** Whether a request is active, the callback stored last, the detached workers that have not run
      yet, and the history. */
  datatype SingleShot = SingleShot(active: bool, stored: Callback, workers: nat, history: seq<Incident>)

  const UNUSED := SingleShot(false, 0, 0, [])

  function GetTerrestrial(s: SingleShot, cb: Callback): SingleShot {
    SingleShot(true, cb, s.workers + 1, s.history + [Requested(cb)])
  }

  function CancelTerrestrial(s: SingleShot): SingleShot {
    s.(active := false, history := s.history + [Cancelled])
  }

  function TerrestrialWorker(s: SingleShot): SingleShot
    requires s.workers > 0
  {
    if s.active then SingleShot(false, s.stored, s.workers - 1, s.history + [Called(s.stored)])
    else s.(workers := s.workers - 1)
  }

  /** A further energy request only replaces the callback of the one under way. */
  function RequestEnergy(s: SingleShot, cb: Callback): SingleShot {
    SingleShot(true, cb, if s.active then s.workers else s.workers + 1, s.history + [Requested(cb)])
  }

  function EnergyWorker(s: SingleShot): SingleShot
    requires s.workers > 0
  {
    SingleShot(false, s.stored, s.workers - 1, s.history + [Called(s.stored)])
  }

  /** The part of LocationManagerStub that serves terrestrial position requests. */
  class TerrestrialRequests {
    var isGetTerrestrialRequestActive: bool
    var cbTerrestrialPosition: Callback
    var workers: nat
    var history: seq<Incident>

    constructor ()
      ensures State() == UNUSED
    {
      isGetTerrestrialRequestActive, cbTerrestrialPosition, workers, history := false, 0, 0, [];
    }

    function State(): SingleShot
      reads this
    {
      SingleShot(isGetTerrestrialRequestActive, cbTerrestrialPosition, workers, history)
    }

    /** success: whether the response is SUCCESS. */
    method GetTerrestrialPosition(cb: Callback) returns (success: bool)
      modifies this
      ensures State() == GetTerrestrial(old(State()), cb)
      ensures success
    {
      success := true;
      isGetTerrestrialRequestActive := true;
      cbTerrestrialPosition := cb;
      workers := workers + 1;
      history := history + [Requested(cb)];
    }

    method GetTerrestrialPositionCb()
      requires workers > 0
      modifies this
      ensures State() == TerrestrialWorker(old(State()))
    {
      workers := workers - 1;
      if isGetTerrestrialRequestActive {
        history := history + [Called(cbTerrestrialPosition)];
        isGetTerrestrialRequestActive := false;
      }
    }

    /** found: whether the response is SUCCESS rather than INVALID_ARGUMENTS. */
    method CancelTerrestrialPositionRequest() returns (found: bool)
      modifies this
      ensures State() == CancelTerrestrial(old(State()))
      ensures found == old(isGetTerrestrialRequestActive)
    {
      found := isGetTerrestrialRequestActive;
      if isGetTerrestrialRequestActive {
        isGetTerrestrialRequestActive := false;
      }
      history := history + [Cancelled];
    }
  }

  /** The part of LocationManagerStub that serves energy requests; clients call one at a time. */
  class EnergyRequests {
    var cbLock: bool
    var cbStore: Callback
    var workers: nat
    var history: seq<Incident>

    constructor ()
      ensures State() == UNUSED
    {
      cbLock, cbStore, workers, history := false, 0, 0, [];
    }

    function State(): SingleShot
      reads this
    {
      SingleShot(cbLock, cbStore, workers, history)
    }

    method RequestEnergyConsumedInfo(cb: Callback)
      modifies this
      ensures State() == RequestEnergy(old(State()), cb)
    {
      cbStore := cb;
      history := history + [Requested(cb)];
      if !cbLock {
        cbLock := true;
      } else {
        return;
      }
      cbStore := cb;
      workers := workers + 1;
    }

    method RequestEnergyConsumedCb()
      requires workers > 0
      modifies this
      ensures State() == EnergyWorker(old(State()))
    {
      workers := workers - 1;
      history := history + [Called(cbStore)];
      cbLock := false;
    }
  }
}
