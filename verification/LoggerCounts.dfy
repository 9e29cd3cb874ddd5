/** Nothing is lost uncounted: conservation of log calls, honest snapshots, drop reports that add up. */
module LoggerCounts {
  import opened LoggerProtocol
  import opened LoggerStructure
  import opened Sums
  import RP = RingProtocol

  function Published(ps: seq<Producer>): (d: seq<nat>)
    ensures |d| == |ps| && forall r :: 0 <= r < |ps| ==> d[r] == |ps[r].ring.pushed|
  {
    seq(|ps|, r requires 0 <= r < |ps| => |ps[r].ring.pushed|)
  }

  function Taken(ps: seq<Producer>): (d: seq<nat>)
    ensures |d| == |ps| && forall r :: 0 <= r < |ps| ==> d[r] == |ps[r].ring.popped|
  {
    seq(|ps|, r requires 0 <= r < |ps| => |ps[r].ring.popped|)
  }

  /** How many records each ring holds. */
  function Held(ps: seq<Producer>): (d: seq<nat>)
    ensures |d| == |ps| && forall r :: 0 <= r < |ps| ==> d[r] == |ps[r].ring.Unread()|
  {
    seq(|ps|, r requires 0 <= r < |ps| => |ps[r].ring.Unread()|)
  }

  /** One for each thread that is inside a log call. */
  function Busy(threads: seq<Thread>): (d: seq<nat>)
    ensures |d| == |threads| && forall t :: 0 <= t < |threads| ==> d[t] == if threads[t].call.Idle? then 0 else 1
  {
    seq(|threads|, t requires 0 <= t < |threads| => if threads[t].call.Idle? then 0 else 1)
  }

  ghost predicate CallsInv(s: State) {
    && s.accepted == Sum(Published(s.producers)) + Sum(Dropped(s.producers)) + Sum(Busy(s.threads))
    && |s.log| == Sum(Taken(s.producers))
  }

  ghost predicate SnapshotInv(s: State) {
    s.mutex.Counting? ==>
      && s.mutex.at <= |s.producers|
      && s.mutex.written <= s.written
      && s.mutex.sum <= Sum(Dropped(s.producers)[..s.mutex.at])
  }

  ghost predicate PointwiseLe(xs: seq<nat>, ys: seq<nat>) {
    |xs| <= |ys| && forall i :: 0 <= i < |xs| ==> xs[i] <= ys[i]
  }

  ghost predicate ReportInv(s: State) {
    && |s.seenDrops| == |s.producers|
    && PointwiseLe(s.lastScan, s.seenDrops) && PointwiseLe(s.seenDrops, Dropped(s.producers))
    && (s.mutex.Reporting? ==> s.mutex.at <= |s.seenDrops| && s.mutex.sum == Sum(s.seenDrops[..s.mutex.at]))
    && (if s.sink.Compare? then s.sink.total == Sum(s.lastScan) && s.reported <= s.sink.total
        else s.reported == Sum(s.lastScan))
    && (forall i :: 0 <= i < |s.printed| ==> s.printed[i] > 0)
    && Sum(s.printed) == s.reported
  }

  ghost predicate CountInv(s: State) {
    CallsInv(s) && SnapshotInv(s) && ReportInv(s)
  }

  lemma SumOneMore(xs: seq<nat>, ys: seq<nat>, i: nat)
    requires i < |xs| && ys == xs[i := xs[i] + 1]
    ensures Sum(ys) == Sum(xs) + 1
  {
    SumUpdate(xs, i, xs[i] + 1);
  }

  /** A drop counter only grows, and growth keeps every bound on earlier readings. */
  lemma GrowingDropsKeep(s: State, s': State)
    requires SnapshotInv(s) && ReportInv(s)
    requires PointwiseLe(Dropped(s.producers), Dropped(s'.producers)) && |s'.producers| == |s.producers|
    requires s'.mutex == s.mutex && s'.written == s.written && s'.sink == s.sink
    requires s'.seenDrops == s.seenDrops && s'.lastScan == s.lastScan && s'.reported == s.reported
        && s'.printed == s.printed
    ensures SnapshotInv(s') && ReportInv(s')
  {
    hide Published; hide Taken; hide Dropped; hide Busy; hide Held; hide Sum;
    if s.mutex.Counting? {
      SumMonotone(Dropped(s.producers)[..s.mutex.at], Dropped(s'.producers)[..s.mutex.at]);
    }
  }

  /** The call is over only when its record has been published. */
  lemma PushStaysBusy(g: RP.Geometry, s: State, t: nat, step: RP.Step<Word>)
    requires StructInv(g, s) && DoPush(g, s, t, step) != s
    requires t < |s.threads| && (s.threads[t].call.Stamped? || s.threads[t].call.Pushing?)
    requires s.threads[t].call.ring < |s.producers|
    requires var r := s.threads[t].call.ring;
             |DoPush(g, s, t, step).producers| == |s.producers|
                 && DoPush(g, s, t, step).producers[r].ring.pushed == s.producers[r].ring.pushed
    ensures |DoPush(g, s, t, step).threads| == |s.threads| && !DoPush(g, s, t, step).threads[t].call.Idle?
  {
    hide RP.Inv; hide RP.Apply; hide RP.Shape; hide DoPush;
    PushEffect(g, s, t, step);
    var call := s.threads[t].call;
    assert ThreadOk(g, s.producers, t, s.threads[t]);
    ProducerStepFrame(g, s.producers[call.ring].ring, step);
  }

  lemma PushKeepsCounts(g: RP.Geometry, s: State, t: nat, step: RP.Step<Word>)
    requires StructInv(g, s) && CountInv(s)
    ensures CountInv(DoPush(g, s, t, step))
  {
    hide Published; hide Taken; hide Dropped; hide Busy; hide Held; hide Sum;
    hide RP.Inv; hide RP.Apply; hide RP.Shape; hide DoPush;
    PushEffect(g, s, t, step);
    var s' := DoPush(g, s, t, step);
    if s' != s {
      var call := s.threads[t].call;
      var p, q := s.producers[call.ring], s'.producers[call.ring];
      ProducerStepFrame(g, p.ring, step);
      assert ThreadOk(g, s.producers, t, s.threads[t]);
      assert ProducerOk(s, call.ring);
      assert Dropped(s'.producers) == Dropped(s.producers);
      assert Taken(s'.producers) == Taken(s.producers);
      GrowingDropsKeep(s, s');
      if q.ring.pushed == p.ring.pushed {
        assert Published(s'.producers) == Published(s.producers);
        PushStaysBusy(g, s, t, step);
        assert Busy(s'.threads) == Busy(s.threads);
      } else {
        SumOneMore(Published(s.producers), Published(s'.producers), call.ring);
        SumUpdate(Busy(s.threads), t, 0);
        assert Busy(s'.threads) == Busy(s.threads)[t := 0];
      }
    }
  }

  /** Making publishes visible changes no count. */
  lemma SyncKeepsCounts(g: RP.Geometry, ps: seq<Producer>)
    requires forall r :: 0 <= r < |ps| ==> RP.Shape(g, ps[r].ring)
    ensures forall r :: 0 <= r < |ps| ==>
              && Synced(g, ps[r]).ring.pushed == ps[r].ring.pushed
              && Synced(g, ps[r]).ring.popped == ps[r].ring.popped
              && Synced(g, ps[r]).dropped == ps[r].dropped
  {
  }

  lemma RegisterKeepsCounts(g: RP.Geometry, s: State, t: nat)
    requires StructInv(g, s) && CountInv(s)
    ensures CountInv(DoRegister(g, s, t))
  {
    hide Published; hide Taken; hide Dropped; hide Busy; hide Held; hide Sum;
    hide RP.Inv; hide RP.Shape; hide Synced;
    var s' := DoRegister(g, s, t);
    if s' != s {
      SyncKeepsCounts(g, s.producers);
      var ps, qs := s.producers, s'.producers;
      assert Published(qs) == Published(ps) + [0] && Taken(qs) == Taken(ps) + [0] && Dropped(qs) == Dropped(ps) + [0];
      SumAppend(Published(ps), 0);
      SumAppend(Taken(ps), 0);
      SumAppend(Dropped(ps), 0);
      assert Busy(s'.threads) == Busy(s.threads);
    }
  }

  lemma ThreadKeepsCounts(g: RP.Geometry, s: State, step: Step)
    requires StructInv(g, s) && CountInv(s)
    requires ThreadStep(step)
    ensures CountInv(DoThread(g, s, step))
  {
    hide Published; hide Taken; hide Dropped; hide Busy; hide Held; hide Sum;
    hide RP.Inv; hide RP.Shape;
    var s' := DoThread(g, s, step);
    if s' != s {
      assert ThreadOk(g, s.producers, step.t, s.threads[step.t]);
      assert Published(s'.producers) == Published(s.producers) && Taken(s'.producers) == Taken(s.producers);
      GrowingDropsKeep(s, s');
      if step.Call? {
        SumOneMore(Busy(s.threads), Busy(s'.threads), step.t);
      } else if step.CountDrop? {
        SumUpdate(Busy(s.threads), step.t, 0);
        assert Busy(s'.threads) == Busy(s.threads)[step.t := 0];
        SumOneMore(Dropped(s.producers), Dropped(s'.producers), s.threads[step.t].call.ring);
      } else {
        assert Busy(s'.threads) == Busy(s.threads);
      }
      assert Dropped(s'.producers) == Dropped(s.producers) || step.CountDrop?;
    }
  }

  lemma PopKeepsCounts(g: RP.Geometry, s: State, step: RP.Step<Word>)
    requires StructInv(g, s) && CountInv(s)
    ensures CountInv(DoPop(g, s, step))
  {
    hide Published; hide Taken; hide Dropped; hide Busy; hide Held; hide Sum;
    hide RP.Inv; hide RP.Apply; hide RP.Shape; hide DoPop; hide StructInv;
    ShapeOf(g, s);
    PopEffect(g, s, step);
    var s' := DoPop(g, s, step);
    if s' != s {
      var at := s.mutex.at;
      assert Published(s'.producers) == Published(s.producers) && Dropped(s'.producers) == Dropped(s.producers);
      if |s'.log| == |s.log| {
        assert Taken(s'.producers) == Taken(s.producers);
      } else {
        SumOneMore(Taken(s.producers), Taken(s'.producers), at);
      }
    }
  }

  lemma ReadKeepsCounts(g: RP.Geometry, s: State, v: nat)
    requires StructInv(g, s) && CountInv(s)
    ensures CountInv(DoMutex(g, s, ReadDrops(v)))
  {
    hide Published; hide Taken; hide Dropped; hide Busy; hide Held; hide Sum;
    hide RP.Inv; hide RP.Shape;
    var s' := DoMutex(g, s, ReadDrops(v));
    if s' != s {
      var at := s.mutex.at;
      if s.mutex.Counting? {
        SumTake(Dropped(s.producers), at);
      } else {
        SumTake(s'.seenDrops, at);
        assert s'.seenDrops[..at] == s.seenDrops[..at];
      }
    }
  }

  lemma BeginDrainKeepsCounts(g: RP.Geometry, s: State, who: Who)
    requires StructInv(g, s) && CountInv(s)
    ensures CountInv(DoMutex(g, s, BeginDrain(who)))
  {
    hide Published; hide Taken; hide Dropped; hide Busy; hide Held; hide Sum;
    hide RP.Inv; hide RP.Shape; hide Synced;
    var s' := DoMutex(g, s, BeginDrain(who));
    SyncKeepsCounts(g, s.producers);
    assert Published(s'.producers) == Published(s.producers) && Taken(s'.producers) == Taken(s.producers);
    assert Dropped(s'.producers) == Dropped(s.producers);
  }

  lemma MutexKeepsCounts(g: RP.Geometry, s: State, step: Step)
    requires StructInv(g, s) && CountInv(s)
    requires MutexStep(step)
    ensures CountInv(DoMutex(g, s, step))
  {
    hide Published; hide Taken; hide Dropped; hide Busy; hide Held; hide Sum;
    hide RP.Inv; hide RP.Shape; hide Synced; hide SyncAll;
    var s' := DoMutex(g, s, step);
    SumNone(Dropped(s.producers));
    SumNone(s.seenDrops);
    if step.ReadDrops? {
      ReadKeepsCounts(g, s, step.v);
    } else if step.BeginDrain? {
      BeginDrainKeepsCounts(g, s, step.who);
    } else if step.EndReport? && s' != s {
      assert s.seenDrops[..|s.seenDrops|] == s.seenDrops;
      SumMonotone(s.lastScan, s.seenDrops);
    }
  }

  lemma SinkKeepsCounts(g: RP.Geometry, s: State, step: Step)
    requires StructInv(g, s) && CountInv(s)
    requires SinkStep(step)
    ensures CountInv(DoSink(g, s, step))
  {
    hide Published; hide Taken; hide Dropped; hide Busy; hide Held; hide Sum;
    hide RP.Inv; hide RP.Shape;
    var s' := DoSink(g, s, step);
    if step.PrintReport? && s.sink.Compare? {
      SumAppend(s.printed, s.sink.total - s.reported);
    }
  }

  lemma StepKeepsCounts(g: RP.Geometry, s: State, step: Step)
    requires StructInv(g, s) && CountInv(s)
    ensures CountInv(Apply(g, s, step))
  {
    hide StructInv; hide CountInv;
    hide DoRegister; hide DoPush; hide DoPop; hide DoThread; hide DoMutex; hide DoSink;
    if step.Register? {
      RegisterKeepsCounts(g, s, step.t);
    } else if step.Push? {
      PushKeepsCounts(g, s, step.t, step.step);
    } else if step.Pop? {
      PopKeepsCounts(g, s, step.step);
    } else if ThreadStep(step) {
      ThreadKeepsCounts(g, s, step);
    } else if MutexStep(step) {
      MutexKeepsCounts(g, s, step);
    } else {
      SinkKeepsCounts(g, s, step);
    }
  }

  lemma {:induction false} RunKeepsCounts(g: RP.Geometry, s: State, steps: seq<Step>)
    requires StructInv(g, s) && CountInv(s)
    ensures StructInv(g, After(g, s, steps)) && CountInv(After(g, s, steps))
    decreases |steps|
  {
    hide CountInv; hide Apply;
    if steps == [] {
    } else {
      StepKeepsStruct(g, s, steps[0]);
      StepKeepsCounts(g, s, steps[0]);
      RunKeepsCounts(g, Apply(g, s, steps[0]), steps[1..]);
    }
  }

  lemma InitialCounts(g: RP.Geometry, s: State)
    requires Initial(g, s)
    ensures StructInv(g, s) && CountInv(s)
  {
    SumZero(Busy(s.threads));
  }

  lemma HeldIsDifference(ps: seq<Producer>)
    requires forall r :: 0 <= r < |ps| ==> |ps[r].ring.popped| <= |ps[r].ring.pushed|
    ensures Sum(Published(ps)) == Sum(Taken(ps)) + Sum(Held(ps))
  {
    hide Published; hide Taken; hide Held; hide Sum;
    SumPointwise(Published(ps), Taken(ps), Held(ps));
  }

  /**
   In every reachable state each accepted log call is accounted for exactly once:
   written, dropped, waiting in a ring, popped but not yet written, or still in
   its caller's hands.
   */
  lemma CallsAreConserved(g: RP.Geometry, s0: State, steps: seq<Step>)
    requires Initial(g, s0)
    ensures var s := After(g, s0, steps);
            && s.accepted == s.written + Sum(Dropped(s.producers)) + Sum(Held(s.producers))
                             + (|s.log| - s.written) + Sum(Busy(s.threads))
            && 0 <= |s.log| - s.written <= 1
  {
    hide Published; hide Taken; hide Dropped; hide Busy; hide Held; hide Sum; hide After; hide Apply;
    InitialCounts(g, s0);
    RunKeepsCounts(g, s0, steps);
    var s := After(g, s0, steps);
    forall r | 0 <= r < |s.producers| ensures |s.producers[r].ring.popped| <= |s.producers[r].ring.pushed| {
      assert RP.Inv(g, s.producers[r].ring);
    }
    HeldIsDifference(s.producers);
  }

  /** A `stats()` snapshot taken while everything is moving never counts a call twice. */
  lemma SnapshotNeverOverCounts(g: RP.Geometry, s0: State, steps: seq<Step>)
    requires Initial(g, s0)
    ensures var s := After(g, s0, steps);
            s.mutex.Counting? ==>
              && s.mutex.written <= s.written
              && s.mutex.sum <= Sum(Dropped(s.producers))
              && s.mutex.written + s.mutex.sum <= s.accepted
  {
    hide Published; hide Taken; hide Dropped; hide Busy; hide Held; hide Sum; hide After; hide Apply; hide RP.Inv;
    InitialCounts(g, s0);
    RunKeepsCounts(g, s0, steps);
    CallsAreConserved(g, s0, steps);
    var s := After(g, s0, steps);
    SumNonNegative(Held(s.producers));
    SumNonNegative(Busy(s.threads));
    if s.mutex.Counting? {
      SumMonotone(Dropped(s.producers)[..s.mutex.at], Dropped(s.producers));
    }
  }

  /**
   Drop reports telescope: over any run, through any number of sink restarts,
   every printed count is positive, together they are what has been reported, and
   that never exceeds what was dropped.
   */
  lemma ReportsTelescope(g: RP.Geometry, s0: State, steps: seq<Step>)
    requires Initial(g, s0)
    ensures var s := After(g, s0, steps);
            && (forall i :: 0 <= i < |s.printed| ==> s.printed[i] > 0)
            && Sum(s.printed) == s.reported <= Sum(Dropped(s.producers))
  {
    hide Published; hide Taken; hide Dropped; hide Busy; hide Held; hide Sum; hide After; hide Apply; hide RP.Inv;
    InitialCounts(g, s0);
    RunKeepsCounts(g, s0, steps);
    var s := After(g, s0, steps);
    SumMonotone(s.lastScan, s.seenDrops);
    SumMonotone(s.seenDrops, Dropped(s.producers));
  }
}
