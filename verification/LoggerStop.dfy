/**
 Stopping: when the producers are quiet before `stop()` is called, the sink
 thread leaves nothing behind.
 */
module LoggerStop {
  import opened LoggerProtocol
  import opened LoggerStructure
  import opened LoggerCounts
  import opened Sums
  import RP = RingProtocol

  /** The sink thread has seen the stop request. */
  ghost predicate Stopping(k: Sink) {
    k.FinalDrain? || k.FinalReport? || (k.Compare? && k.final) || k.Done?
  }

  /** Its last drain is over. */
  ghost predicate Drained(k: Sink) {
    k.FinalReport? || (k.Compare? && k.final) || k.Done?
  }

  ghost predicate Empty(p: Producer) {
    |p.ring.popped| == |p.ring.pushed|
  }

  ghost predicate QuietInv(s: State) {
    && (Stopping(s.sink) ==> s.stopRequested)
    && (s.quiet ==>
          && AllIdle(s.threads)
          && (Stopping(s.sink) ==> s.seenDrops == Dropped(s.producers))
          && (s.sink.FinalDrain? && s.mutex.Draining? && s.mutex.who.SinkThread? ==>
                && (forall r :: 0 <= r < |s.producers| ==> s.producers[r].ring.consView == |s.producers[r].ring.pushed|)
                && (forall r :: 0 <= r < s.mutex.at && r < |s.producers| ==> Empty(s.producers[r])))
          && (Drained(s.sink) ==>
                && (forall r :: 0 <= r < |s.producers| ==> Empty(s.producers[r]))
                && |s.log| == s.written)
          && ((s.sink.Compare? && s.sink.final) || s.sink.Done? ==> s.lastScan == Dropped(s.producers)))
  }

  lemma PushKeepsQuiet(g: RP.Geometry, s: State, t: nat, step: RP.Step<Word>)
    requires StructInv(g, s) && QuietInv(s)
    ensures QuietInv(DoPush(g, s, t, step))
  {
    hide RP.Inv; hide RP.Apply; hide RP.Shape; hide Dropped; hide DoPush;
    PushEffect(g, s, t, step);
    var s' := DoPush(g, s, t, step);
    if s' != s {
      assert !s.threads[t].call.Idle?;
    }
  }

  lemma ThreadKeepsQuiet(g: RP.Geometry, s: State, step: Step)
    requires StructInv(g, s) && QuietInv(s)
    requires ThreadStep(step)
    ensures QuietInv(DoThread(g, s, step))
  {
    hide RP.Inv; hide RP.Shape; hide Dropped;
  }

  lemma RegisterKeepsQuiet(g: RP.Geometry, s: State, t: nat)
    requires StructInv(g, s) && QuietInv(s)
    ensures QuietInv(DoRegister(g, s, t))
  {
    hide RP.Inv; hide RP.Shape; hide Dropped; hide SyncOwner; hide Synced;
    if DoRegister(g, s, t) != s {
      assert !s.threads[t].call.Idle?;
    }
  }

  lemma PopKeepsQuiet(g: RP.Geometry, s: State, step: RP.Step<Word>)
    requires StructInv(g, s) && QuietInv(s)
    ensures QuietInv(DoPop(g, s, step))
  {
    hide RP.Inv; hide RP.Apply; hide RP.Shape; hide Dropped; hide DoPop;
    PopEffect(g, s, step);
    var s' := DoPop(g, s, step);
    if s' != s {
      var at := s.mutex.at;
      PopProgress(g, s.producers[at].ring, step);
      assert Dropped(s'.producers) == Dropped(s.producers);
      assert s.quiet && Drained(s.sink) ==> Empty(s.producers[at]);
    }
  }

  lemma FullSync(g: RP.Geometry, ps: seq<Producer>)
    requires forall r :: 0 <= r < |ps| ==> RP.Shape(g, ps[r].ring) && RP.Inv(g, ps[r].ring)
    ensures forall r :: 0 <= r < |ps| ==>
              && Synced(g, ps[r]).ring.pushed == ps[r].ring.pushed
              && Synced(g, ps[r]).ring.popped == ps[r].ring.popped
              && (ps[r].ring.cons.CIdle? ==> Synced(g, ps[r]).ring.consView == |ps[r].ring.pushed|)
  {
  }

  /** The last drain starts with every publish in view. */
  lemma BeginDrainKeepsQuiet(g: RP.Geometry, s: State, who: Who)
    requires StructInv(g, s) && QuietInv(s)
    ensures QuietInv(DoMutex(g, s, BeginDrain(who)))
  {
    hide RP.Inv; hide RP.Shape; hide Synced; hide Dropped;
    var s' := DoMutex(g, s, BeginDrain(who));
    SyncKeepsCounts(g, s.producers);
    FullSync(g, s.producers);
    assert Dropped(s'.producers) == Dropped(s.producers);
    forall r | 0 <= r < |s.producers| && s.mutex.Free? ensures s.producers[r].ring.cons.CIdle? {
      assert ProducerOk(s, r);
    }
  }

  lemma MutexKeepsQuiet(g: RP.Geometry, s: State, step: Step)
    requires StructInv(g, s) && CountInv(s) && QuietInv(s)
    requires MutexStep(step)
    ensures QuietInv(DoMutex(g, s, step))
  {
    hide Published; hide Taken; hide Dropped; hide Busy; hide Held; hide Sum;
    hide RP.Inv; hide RP.Shape; hide SyncAll;
    var s' := DoMutex(g, s, step);
    if step.BeginDrain? {
      BeginDrainKeepsQuiet(g, s, step.who);
    } else if step.ReadDrops? && s' != s {
      assert s.quiet && Stopping(s.sink) && s.mutex.Reporting? ==> s'.seenDrops == s.seenDrops;
    }
  }

  lemma SinkKeepsQuiet(g: RP.Geometry, s: State, step: Step)
    requires StructInv(g, s) && QuietInv(s)
    requires SinkStep(step)
    ensures QuietInv(DoSink(g, s, step))
  {
    hide RP.Inv; hide RP.Shape; hide Dropped;
  }

  lemma StepKeepsQuiet(g: RP.Geometry, s: State, step: Step)
    requires StructInv(g, s) && CountInv(s) && QuietInv(s)
    ensures QuietInv(Apply(g, s, step))
  {
    hide StructInv; hide CountInv; hide QuietInv;
    hide DoRegister; hide DoPush; hide DoPop; hide DoThread; hide DoMutex; hide DoSink;
    if step.Register? {
      RegisterKeepsQuiet(g, s, step.t);
    } else if step.Push? {
      PushKeepsQuiet(g, s, step.t, step.step);
    } else if step.Pop? {
      PopKeepsQuiet(g, s, step.step);
    } else if ThreadStep(step) {
      ThreadKeepsQuiet(g, s, step);
    } else if MutexStep(step) {
      MutexKeepsQuiet(g, s, step);
    } else {
      SinkKeepsQuiet(g, s, step);
    }
  }

  lemma {:induction false} RunKeepsQuiet(g: RP.Geometry, s: State, steps: seq<Step>)
    requires StructInv(g, s) && CountInv(s) && QuietInv(s)
    ensures StructInv(g, After(g, s, steps)) && CountInv(After(g, s, steps)) && QuietInv(After(g, s, steps))
    decreases |steps|
  {
    hide CountInv; hide QuietInv; hide Apply;
    if steps == [] {
    } else {
      StepKeepsStruct(g, s, steps[0]);
      StepKeepsCounts(g, s, steps[0]);
      StepKeepsQuiet(g, s, steps[0]);
      RunKeepsQuiet(g, Apply(g, s, steps[0]), steps[1..]);
    }
  }

  /**
   If every log call had finished before the stop request, and none began before
   the sink thread ended, then every ring is empty, every accepted call was
   written or counted as dropped, and every drop has been reported.
   */
  lemma QuietStopLosesNothing(g: RP.Geometry, s0: State, steps: seq<Step>)
    requires Initial(g, s0)
    requires After(g, s0, steps).quiet && After(g, s0, steps).sink.Done?
    ensures var s := After(g, s0, steps);
            && (forall r :: 0 <= r < |s.producers| ==> s.producers[r].ring.Unread() == [])
            && s.accepted == s.written + Sum(Dropped(s.producers))
            && s.reported == Sum(Dropped(s.producers)) == Sum(s.printed)
  {
    hide Published; hide Taken; hide Dropped; hide Busy; hide Held; hide Sum; hide RP.Inv; hide After; hide Apply;
    InitialCounts(g, s0);
    RunKeepsQuiet(g, s0, steps);
    CallsAreConserved(g, s0, steps);
    var s := After(g, s0, steps);
    forall r | 0 <= r < |s.producers| ensures s.producers[r].ring.Unread() == [] {
      assert Empty(s.producers[r]);
    }
    SumZero(Held(s.producers));
    SumZero(Busy(s.threads));
  }
}
