/**
 Startup and shutdown order. The components' own outcomes are arbitrary: each
 start is given what every `init()` and `start()` would answer, and the trace
 records the calls made.
 */
module Lifecycle {
  datatype Status = Ok | Err(code: nat)

  datatype Event =
    | InitOk(i: nat) | InitFailed(i: nat)
    | StartOk(i: nat) | StartFailed(i: nat)
    | Stopped(i: nat)

  /** What one attempt to start would meet, component by component. */
  datatype Outcomes = Outcomes(init: nat -> Status, start: nat -> Status)

  datatype AppState = AppState(count: nat, started: nat, running: bool, trace: seq<Event>)

  datatype Op = Add | Start(outcomes: Outcomes) | Stop

  /** Stopping components `count - 1` down to 0. */
  function StopEvents(count: nat): seq<Event> {
    if count == 0 then [] else [Stopped(count - 1)] + StopEvents(count - 1)
  }

  /** The calls of a start from component `i` on, how many are up after it, and its answer. */
  function StartFrom(count: nat, o: Outcomes, i: nat, started: nat): (seq<Event>, nat, Status)
    requires i <= count
    decreases count - i
  {
    if i == count then ([], started, Ok)
    else if o.init(i).Err? then ([InitFailed(i)] + StopEvents(i), 0, o.init(i))
    else if o.start(i).Err? then ([InitOk(i), StartFailed(i)] + StopEvents(i + 1), 0, o.start(i))
    else
      var (events, up, s) := StartFrom(count, o, i + 1, i + 1);
      ([InitOk(i), StartOk(i)] + events, up, s)
  }

  lemma StartUnfolds(count: nat, o: Outcomes, i: nat, started: nat)
    requires i <= count
    ensures StartFrom(count, o, i, started) ==
            if i == count then ([], started, Ok)
            else if o.init(i).Err? then ([InitFailed(i)] + StopEvents(i), 0, o.init(i))
            else if o.start(i).Err? then ([InitOk(i), StartFailed(i)] + StopEvents(i + 1), 0, o.start(i))
            else
              var rest := StartFrom(count, o, i + 1, i + 1);
              ([InitOk(i), StartOk(i)] + rest.0, rest.1, rest.2)
  {
  }

  function Do(s: AppState, op: Op): AppState {
    match op
    case Add => s.(count := s.count + 1)
    case Start(o) =>
      var (events, up, status) := StartFrom(s.count, o, 0, s.started);
      s.(started := up, running := s.running || status.Ok?, trace := s.trace + events)
    case Stop => s.(started := 0, running := false, trace := s.trace + StopEvents(s.started))
  }

  ghost function Run(s: AppState, ops: seq<Op>): AppState
    decreases |ops|
  {
    if |ops| == 0 then s else Run(Do(s, ops[0]), ops[1..])
  }

  class App {
    var count: nat
    var started: nat
    var running: bool
    var trace: seq<Event>

    ghost function State(): AppState
      reads this
    {
      AppState(count, started, running, trace)
    }

    constructor ()
      ensures State() == AppState(0, 0, false, [])
    {
      count, started, running, trace := 0, 0, false, [];
    }

    method AddComponent()
      modifies this
      ensures State() == Do(old(State()), Add)
    {
      count := count + 1;
    }

    /** Reverse order, whatever happened before. */
    method StopThrough(upTo: nat)
      modifies this
      ensures State() == old(State()).(started := 0, trace := old(trace) + StopEvents(upTo))
    {
      var c := upTo;
      while c > 0
        invariant 0 <= c <= upTo
        invariant trace + StopEvents(c) == old(trace) + StopEvents(upTo)
        invariant count == old(count) && running == old(running)
      {
        c := c - 1;
        trace := trace + [Stopped(c)];
      }
      started := 0;
    }

    method StartAll(o: Outcomes) returns (s: Status)
      modifies this
      ensures State() == Do(old(State()), Start(o))
      ensures s == StartFrom(old(count), o, 0, old(started)).2
    {
      hide StopEvents; hide StartFrom;
      ghost var whole := StartFrom(count, o, 0, started);
      ghost var before := trace;
      var i := 0;
      while i < count
        invariant 0 <= i <= count == old(count)
        invariant running == old(running)
        invariant var rest := StartFrom(count, o, i, started);
                  trace + rest.0 == before + whole.0 && whole.1 == rest.1 && whole.2 == rest.2
      {
        StartUnfolds(count, o, i, started);
        var init := o.init(i);
        if init.Err? {
          assert trace + ([InitFailed(i)] + StopEvents(i)) == (trace + [InitFailed(i)]) + StopEvents(i);
          trace := trace + [InitFailed(i)];
          StopThrough(i);
          return init;
        }
        ghost var rest := StartFrom(count, o, i + 1, i + 1).0;
        assert trace + ([InitOk(i), StartOk(i)] + rest) == ((trace + [InitOk(i)]) + [StartOk(i)]) + rest;
        assert trace + ([InitOk(i), StartFailed(i)] + StopEvents(i + 1)) ==
               ((trace + [InitOk(i)]) + [StartFailed(i)]) + StopEvents(i + 1);
        trace := trace + [InitOk(i)];
        started := i + 1;
        var start := o.start(i);
        if start.Err? {
          trace := trace + [StartFailed(i)];
          StopThrough(started);
          return start;
        }
        trace := trace + [StartOk(i)];
        i := i + 1;
      }
      StartUnfolds(count, o, count, started);
      assert trace + [] == trace;
      running := true;
      return Ok;
    }

    method StopAll()
      modifies this
      ensures State() == Do(old(State()), Stop)
    {
      StopThrough(started);
      running := false;
    }
  }

  /**
   The discipline a trace must follow, tracked by how many components are up:
   initialise the next one up, start only the one just initialised, stop only the
   last one up. `None` once the discipline is broken.
   */
  datatype Height = Broken | Up(h: nat)

  function Follow(up: Height, e: Event): Height {
    if up.Broken? then Broken
    else match e
      case InitOk(i) => if i == up.h then Up(i + 1) else Broken
      case InitFailed(i) => if i == up.h then up else Broken
      case StartOk(i) => if i + 1 == up.h then up else Broken
      case StartFailed(i) => if i + 1 == up.h then up else Broken
      case Stopped(i) => if i + 1 == up.h then Up(i) else Broken
  }

  function Replay(events: seq<Event>): Height {
    if events == [] then Up(0)
    else Follow(Replay(events[..|events| - 1]), events[|events| - 1])
  }

  lemma ReplayMore(events: seq<Event>, e: Event)
    ensures Replay(events + [e]) == Follow(Replay(events), e)
  {
    assert (events + [e])[..|events|] == events;
  }

  lemma {:induction false} BrokenStays(events: seq<Event>, more: seq<Event>)
    requires Replay(events).Broken?
    ensures Replay(events + more).Broken?
    decreases |more|
  {
    if more == [] {
      assert events + more == events;
    } else {
      ReplayMore(events, more[0]);
      BrokenStays(events + [more[0]], more[1..]);
      assert events + more == events + [more[0]] + more[1..];
    }
  }

  /** Stopping everything that is up takes the height to zero. */
  lemma {:induction false} StopsUnwind(events: seq<Event>, h: nat)
    requires Replay(events) == Up(h)
    ensures Replay(events + StopEvents(h)) == Up(0)
    decreases h
  {
    hide Replay;
    if h == 0 {
      assert events + StopEvents(0) == events;
    } else {
      ReplayMore(events, Stopped(h - 1));
      StopsUnwind(events + [Stopped(h - 1)], h - 1);
      assert events + StopEvents(h) == events + [Stopped(h - 1)] + StopEvents(h - 1);
    }
  }

  /** A start from where the trace stands follows the discipline and leaves the count of what is up. */
  lemma {:induction false} StartFollows(events: seq<Event>, count: nat, o: Outcomes, i: nat)
    requires i <= count && Replay(events) == Up(i)
    ensures var (more, up, _) := StartFrom(count, o, i, i);
            Replay(events + more) == Up(up)
    decreases count - i
  {
    hide Replay; hide StopEvents;
    var more := StartFrom(count, o, i, i).0;
    if i == count {
      assert events + more == events;
    } else if o.init(i).Err? {
      ReplayMore(events, InitFailed(i));
      StopsUnwind(events + [InitFailed(i)], i);
      assert events + more == events + [InitFailed(i)] + StopEvents(i);
    } else {
      ReplayMore(events, InitOk(i));
      if o.start(i).Err? {
        ReplayMore(events + [InitOk(i)], StartFailed(i));
        StopsUnwind(events + [InitOk(i)] + [StartFailed(i)], i + 1);
        assert events + more == events + [InitOk(i)] + [StartFailed(i)] + StopEvents(i + 1);
      } else {
        ReplayMore(events + [InitOk(i)], StartOk(i));
        StartFollows(events + [InitOk(i)] + [StartOk(i)], count, o, i + 1);
        assert events + more == events + [InitOk(i)] + [StartOk(i)] + StartFrom(count, o, i + 1, i + 1).0;
      }
    }
  }

  /** Did every start happen with nothing up? */
  ghost predicate StartedFromDown(s: AppState, ops: seq<Op>)
    decreases |ops|
  {
    |ops| == 0 || ((ops[0].Start? ==> s.started == 0) && StartedFromDown(Do(s, ops[0]), ops[1..]))
  }

  ghost predicate Disciplined(s: AppState) {
    Replay(s.trace) == Up(s.started) && s.started <= s.count
  }

  lemma UpNeverExceedsCount(count: nat, o: Outcomes, i: nat, started: nat)
    requires i <= count && started <= count
    ensures StartFrom(count, o, i, started).1 <= count
    decreases count - i
  {
    if i < count && o.init(i).Ok? && o.start(i).Ok? {
      UpNeverExceedsCount(count, o, i + 1, i + 1);
    }
  }

  lemma StartBeginsWithInit(count: nat, o: Outcomes, started: nat)
    requires count > 0
    ensures var events := StartFrom(count, o, 0, started).0;
            events != [] && (events[0] == InitOk(0) || events[0] == InitFailed(0))
  {
    hide StopEvents;
  }

  lemma DoKeepsDiscipline(s: AppState, op: Op)
    requires Disciplined(s)
    ensures op.Start? && s.started > 0 ==> Replay(Do(s, op).trace).Broken?
    ensures !(op.Start? && s.started > 0) ==> Disciplined(Do(s, op))
  {
    hide StartFrom; hide StopEvents; hide Replay;
    match op
    case Add =>
    case Stop => StopsUnwind(s.trace, s.started);
    case Start(o) =>
      UpNeverExceedsCount(s.count, o, 0, s.started);
      if s.started == 0 {
        StartFollows(s.trace, s.count, o, 0);
      } else {
        var (events, _, _) := StartFrom(s.count, o, 0, s.started);
        StartBeginsWithInit(s.count, o, s.started);
        ReplayMore(s.trace, events[0]);
        BrokenStays(s.trace + [events[0]], events[1..]);
        assert s.trace + events == s.trace + [events[0]] + events[1..];
      }
  }

  lemma {:induction false} BrokenRunStays(s: AppState, ops: seq<Op>)
    requires Replay(s.trace).Broken?
    ensures Replay(Run(s, ops).trace).Broken?
    decreases |ops|
  {
    if |ops| == 0 {
    } else {
      var t := Do(s, ops[0]);
      var more := t.trace[|s.trace|..];
      assert t.trace == s.trace + more;
      BrokenStays(s.trace, more);
      BrokenRunStays(t, ops[1..]);
    }
  }

  /**
   For arbitrary outcomes and any alternation of adds, starts and stops: the
   discipline holds, and `started_` counts what is up, exactly when no start was
   called on a system that was already up.
   */
  lemma {:induction false} DisciplineIffStartedFromDown(s: AppState, ops: seq<Op>)
    requires Disciplined(s)
    ensures Disciplined(Run(s, ops)) <==> StartedFromDown(s, ops)
    ensures Replay(Run(s, ops).trace).Broken? <==> !StartedFromDown(s, ops)
    decreases |ops|
  {
    if |ops| == 0 {
    } else {
      DoKeepsDiscipline(s, ops[0]);
      if ops[0].Start? && s.started > 0 {
        BrokenRunStays(Do(s, ops[0]), ops[1..]);
      } else {
        DisciplineIffStartedFromDown(Do(s, ops[0]), ops[1..]);
      }
    }
  }

  function CountOf(events: seq<Event>, e: Event): nat {
    if events == [] then 0
    else CountOf(events[..|events| - 1], e) + if events[|events| - 1] == e then 1 else 0
  }

  /** Under the discipline every successful init is matched by one stop, except for what is still up. */
  lemma {:induction false} InitsMatchStops(events: seq<Event>, i: nat)
    requires Replay(events).Up?
    ensures CountOf(events, InitOk(i)) == CountOf(events, Stopped(i)) + if i < Replay(events).h then 1 else 0
    decreases |events|
  {
    if events == [] {
    } else {
      InitsMatchStops(events[..|events| - 1], i);
    }
  }

  /**
   Destroying the application after any run of starts from down leaves no
   component initialised and not stopped, and stops none that was not.
   */
  lemma DestructionBalances(ops: seq<Op>, i: nat)
    requires StartedFromDown(AppState(0, 0, false, []), ops)
    ensures var s := Do(Run(AppState(0, 0, false, []), ops), Stop);
            && s.started == 0
            && CountOf(s.trace, InitOk(i)) == CountOf(s.trace, Stopped(i))
  {
    var s0 := AppState(0, 0, false, []);
    DisciplineIffStartedFromDown(s0, ops);
    var s := Run(s0, ops);
    DoKeepsDiscipline(s, Stop);
    InitsMatchStops(Do(s, Stop).trace, i);
  }

  /** The first component whose `init` or `start` fails, if any. */
  ghost predicate FirstFailure(count: nat, o: Outcomes, from: nat, i: nat) {
    && from <= i < count
    && (o.init(i).Err? || o.start(i).Err?)
    && forall j :: from <= j < i ==> o.init(j).Ok? && o.start(j).Ok?
  }

  /** A start answers with the first failure's own error, not one met while rolling back. */
  lemma {:induction false} StartReportsFirstFailure(count: nat, o: Outcomes, i: nat, started: nat)
    requires i <= count
    ensures var s := StartFrom(count, o, i, started).2;
            && (s.Ok? <==> forall j :: i <= j < count ==> o.init(j).Ok? && o.start(j).Ok?)
            && forall f :: FirstFailure(count, o, i, f) ==> s == if o.init(f).Err? then o.init(f) else o.start(f)
    decreases count - i
  {
    if i < count && o.init(i).Ok? && o.start(i).Ok? {
      StartReportsFirstFailure(count, o, i + 1, i + 1);
      forall f | FirstFailure(count, o, i, f) ensures FirstFailure(count, o, i + 1, f) {
      }
    }
  }

  lemma {:induction false} StopEventsAre(n: nat)
    ensures |StopEvents(n)| == n && forall j :: 0 <= j < n ==> StopEvents(n)[j] == Stopped(n - 1 - j)
  {
    if n == 0 {
    } else {
      StopEventsAre(n - 1);
    }
  }

  /** The calls that bring components `i` up to `f` up, in order. */
  function Healthy(i: nat, f: nat): (events: seq<Event>)
    requires i <= f
    ensures |events| == 2 * (f - i)
    ensures forall j :: i <= j < f ==> events[2 * (j - i)] == InitOk(j) && events[2 * (j - i) + 1] == StartOk(j)
    decreases f - i
  {
    if i == f then [] else [InitOk(i), StartOk(i)] + Healthy(i + 1, f)
  }

  /** A start that succeeds makes exactly these calls and leaves everything up. */
  lemma {:induction false} StartCallsAll(count: nat, o: Outcomes, i: nat, started: nat)
    requires i <= count && StartFrom(count, o, i, started).2.Ok?
    ensures StartFrom(count, o, i, started) == (Healthy(i, count), if i == count then started else count, Ok)
    decreases count - i
  {
    hide StopEvents;
    if i == count {
    } else {
      StartCallsAll(count, o, i + 1, i + 1);
    }
  }

  /** A start that fails makes them up to the first failure, then stops what had been initialised, last first. */
  lemma {:induction false} StartCallsUntil(count: nat, o: Outcomes, i: nat, started: nat, f: nat)
    requires FirstFailure(count, o, i, f)
    ensures var (events, up, _) := StartFrom(count, o, i, started);
            && up == 0
            && events == Healthy(i, f) + if o.init(f).Err? then [InitFailed(f)] + StopEvents(f)
                                         else [InitOk(f), StartFailed(f)] + StopEvents(f + 1)
    decreases count - i
  {
    hide StopEvents;
    if i < f {
      StartCallsUntil(count, o, i + 1, i + 1, f);
      var rest := StartFrom(count, o, i + 1, i + 1).0;
      assert StartFrom(count, o, i, started).0 == [InitOk(i), StartOk(i)] + rest;
    } else {
      assert Healthy(i, f) == [];
    }
  }

  // Whether the application counts as running.

  /** Operation `i` starts the application with success. */
  ghost predicate Succeeds(s: AppState, ops: seq<Op>, i: nat)
    requires i < |ops|
  {
    ops[i].Start? && var t := Run(s, ops[..i]); StartFrom(t.count, ops[i].outcomes, 0, t.started).2.Ok?
  }

  ghost predicate NoStopAfter(ops: seq<Op>, i: nat) {
    forall j :: i <= j < |ops| ==> !ops[j].Stop?
  }

  ghost predicate StartedSinceStop(s: AppState, ops: seq<Op>) {
    exists i :: 0 <= i < |ops| && Succeeds(s, ops, i) && NoStopAfter(ops, i)
  }

  lemma {:induction false} RunMore(s: AppState, ops: seq<Op>, op: Op)
    ensures Run(s, ops + [op]) == Do(Run(s, ops), op)
    decreases |ops|
  {
    hide Do;
    if |ops| == 0 {
      assert (ops + [op])[1..] == [];
    } else {
      assert (ops + [op])[1..] == ops[1..] + [op];
      RunMore(Do(s, ops[0]), ops[1..], op);
    }
  }

  lemma StartedSinceStopMore(s: AppState, ops: seq<Op>, op: Op)
    ensures StartedSinceStop(s, ops + [op]) <==>
            !op.Stop? && (StartedSinceStop(s, ops) || Succeeds(s, ops + [op], |ops|))
  {
    hide Run; hide StartFrom;
    var n, more := |ops|, ops + [op];
    assert more[n] == op;
    forall i: nat | i < n
      ensures Succeeds(s, more, i) <==> Succeeds(s, ops, i)
      ensures NoStopAfter(more, i) <==> NoStopAfter(ops, i) && !op.Stop?
    {
      assert more[..i] == ops[..i] && more[i] == ops[i];
      assert forall j :: 0 <= j < n ==> more[j] == ops[j];
    }
    assert NoStopAfter(more, n) <==> !op.Stop?;
    if StartedSinceStop(s, ops) && !op.Stop? {
      var i: nat :| i < n && Succeeds(s, ops, i) && NoStopAfter(ops, i);
      assert Succeeds(s, more, i) && NoStopAfter(more, i);
    }
  }

  lemma NeverStarted(s: AppState, ops: seq<Op>)
    requires |ops| == 0
    ensures !StartedSinceStop(s, ops)
  {
  }

  /** After any operations the application is running exactly when a start has succeeded since the last stop. */
  lemma {:induction false} RunningIff(ops: seq<Op>)
    ensures Run(AppState(0, 0, false, []), ops).running <==> StartedSinceStop(AppState(0, 0, false, []), ops)
    decreases |ops|
  {
    hide StartFrom; hide StartedSinceStop;
    var s0 := AppState(0, 0, false, []);
    if |ops| == 0 {
      NeverStarted(s0, ops);
    } else {
      var n := |ops| - 1;
      var before, op := ops[..n], ops[n];
      assert ops == before + [op];
      RunningIff(before);
      RunMore(s0, before, op);
      StartedSinceStopMore(s0, before, op);
      assert ops[..n] == before;
    }
  }

  /** Starting a system of one healthy component twice initialises it twice before any stop. */
  lemma SecondStartBreaksDiscipline()
    ensures var fine := Outcomes(_ => Ok, _ => Ok);
            Run(AppState(0, 0, false, []), [Add, Start(fine), Start(fine)]).trace
                == [InitOk(0), StartOk(0), InitOk(0), StartOk(0)]
            && Replay([InitOk(0), StartOk(0), InitOk(0), StartOk(0)]).Broken?
  {
    var fine := Outcomes(_ => Ok, _ => Ok);
    var ops := [Add, Start(fine), Start(fine)];
    var s1 := AppState(1, 0, false, []);
    var s2 := AppState(1, 1, true, [InitOk(0), StartOk(0)]);
    var s3 := AppState(1, 1, true, [InitOk(0), StartOk(0), InitOk(0), StartOk(0)]);
    assert ops[1..] == [Start(fine), Start(fine)] && ops[1..][1..] == [Start(fine)] && ops[1..][1..][1..] == [];
    assert Do(s1, Start(fine)) == s2 && Do(s2, Start(fine)) == s3;
    assert Run(s2, [Start(fine)]) == Run(s3, []) by {
      assert [Start(fine)][1..] == [];
    }
    assert Run(s1, ops[1..]) == s3;
    ReplayMore([], InitOk(0));
    ReplayMore([InitOk(0)], StartOk(0));
    ReplayMore([InitOk(0), StartOk(0)], InitOk(0));
    ReplayMore([InitOk(0), StartOk(0), InitOk(0)], StartOk(0));
    assert [InitOk(0), StartOk(0), InitOk(0)] + [StartOk(0)] == s3.trace;
  }
}
