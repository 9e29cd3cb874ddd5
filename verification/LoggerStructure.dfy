/** Who may touch what: the part of the logger invariant that does not speak of counts or order. */
module LoggerStructure {
  import opened LoggerProtocol
  import opened Wrappers
  import RP = RingProtocol

  /** No ring after `r` belongs to the same thread. */
  ghost predicate IsLast(ps: seq<Producer>, r: nat)
    requires r < |ps|
  {
    forall q :: r < q < |ps| ==> ps[q].owner != ps[r].owner
  }

  /** A thread only holds its newest ring, and pushes only into that one. */
  ghost predicate ThreadOk(g: RP.Geometry, ps: seq<Producer>, t: nat, th: Thread) {
    && (th.cached.Some? ==>
          th.cached.value < |ps| && ps[th.cached.value].owner == t && IsLast(ps, th.cached.value))
    && match th.call
       case Idle => true
       case Called(payload) => |payload| == g.words
       case Ready(r, payload) => th.cached == Some(r) && |payload| == g.words
       case Stamped(r, rec) => th.cached == Some(r) && |rec| == g.words
       case Pushing(r, rec) =>
         th.cached == Some(r) && |rec| == g.words && !ps[r].ring.prod.PIdle? && ps[r].ring.prod.rec == rec
       case Refused(r) => th.cached == Some(r)
  }

  /** A ring is only written by its owner mid-push and only read by whoever is draining at it. */
  ghost predicate ProducerOk(s: State, r: nat)
    requires r < |s.producers|
  {
    var p := s.producers[r];
    && p.owner < |s.threads|
    && (!p.ring.prod.PIdle? ==> s.threads[p.owner].call == Pushing(r, p.ring.prod.rec))
    && (!p.ring.cons.CIdle? ==> s.mutex.Draining? && s.mutex.at == r && |s.log| == s.written)
  }

  ghost predicate MutexOk(s: State) {
    && s.written <= |s.log| <= s.written + 1
    && (|s.log| != s.written ==> s.mutex.Draining?)
    && (s.mutex.Draining? ==>
          && s.mutex.at <= |s.producers|
          && (s.mutex.who.SinkThread? ==> s.sink.LoopDrain? || s.sink.FinalDrain?))
    && (s.mutex.Counting? ==> s.mutex.at <= |s.producers|)
    && (s.mutex.Reporting? ==> s.mutex.at <= |s.producers| && (s.sink.MayReport? || s.sink.FinalReport?))
  }

  ghost predicate StructInv(g: RP.Geometry, s: State) {
    && Shape(g, s)
    && (forall r :: 0 <= r < |s.producers| ==> RP.Inv(g, s.producers[r].ring))
    && (forall t :: 0 <= t < |s.threads| ==> ThreadOk(g, s.producers, t, s.threads[t]))
    && (forall r :: 0 <= r < |s.producers| ==> ProducerOk(s, r))
    && MutexOk(s)
  }

  lemma ShapeOf(g: RP.Geometry, s: State)
    requires StructInv(g, s)
    ensures Shape(g, s)
  {
  }

  lemma EmptyRingInv(g: RP.Geometry)
    requires GeometryOk(g)
    ensures RP.Inv(g, EmptyRing(g))
  {
    RP.InitialInv(g, EmptyRing(g));
  }

  lemma SyncedInv(g: RP.Geometry, p: Producer)
    requires RP.Inv(g, p.ring)
    ensures RP.Inv(g, Synced(g, p).ring)
  {
    RP.StepKeepsInv(g, p.ring, RP.SyncConsumer(|p.ring.pushed|));
  }

  /** The same owner, and the same two threads at the same points in the ring. */
  ghost predicate SameUser(p: Producer, q: Producer) {
    q.owner == p.owner && q.ring.prod == p.ring.prod && q.ring.cons == p.ring.cons
  }

  lemma SyncedUser(g: RP.Geometry, p: Producer)
    requires RP.Shape(g, p.ring)
    ensures SameUser(p, Synced(g, p))
  {
  }

  lemma RegisterKeepsStruct(g: RP.Geometry, s: State, t: nat)
    requires StructInv(g, s)
    ensures StructInv(g, DoRegister(g, s, t))
  {
    hide RP.Inv; hide RP.Shape; hide RP.Apply; hide Synced;
    var s' := DoRegister(g, s, t);
    if s' != s {
      EmptyRingInv(g);
      forall r | 0 <= r < |s.producers| ensures RP.Inv(g, s'.producers[r].ring)
          && SameUser(s.producers[r], s'.producers[r]) {
        SyncedInv(g, s.producers[r]);
        SyncedUser(g, s.producers[r]);
      }
      forall u | 0 <= u < |s.threads| ensures ThreadOk(g, s'.producers, u, s'.threads[u]) {
        assert ThreadOk(g, s.producers, u, s.threads[u]);
      }
      forall r | 0 <= r < |s'.producers| ensures ProducerOk(s', r) {
        if r < |s.producers| {
          assert ProducerOk(s, r);
        }
      }
    }
  }

  /** What a producer's step leaves alone. */
  lemma ProducerStepFrame(g: RP.Geometry, s: RP.State<Word>, step: RP.Step<Word>)
    requires RP.Shape(g, s)
    requires step.BeginPush? || step.LoadRead? || step.CheckFull? || step.CopyWordIn? || step.Publish?
    ensures var t := RP.Apply(g, s, step);
            && t.cons == s.cons && t.popped == s.popped && t.consView == s.consView
            && (step.BeginPush? && s.prod.PIdle? && |step.rec| == g.words ==> !t.prod.PIdle? && t.prod.rec == step.rec)
            && (!s.prod.PIdle? && !t.prod.PIdle? ==> t.prod.rec == s.prod.rec)
            && (!s.prod.PIdle? && !step.CheckFull? && !step.Publish? ==> !t.prod.PIdle?)
            && t.pushed == (if step.Publish? && !s.prod.PIdle? && t.prod.PIdle? then s.pushed + [s.prod.rec]
                else s.pushed)
  {
  }

  /** What a consumer's step leaves alone. */
  lemma ConsumerStepFrame(g: RP.Geometry, s: RP.State<Word>, step: RP.Step<Word>)
    requires RP.Shape(g, s)
    requires step.BeginPop? || step.LoadWrite? || step.CheckEmpty? || step.CopyWordOut? || step.Release?
    ensures var t := RP.Apply(g, s, step);
            && t.prod == s.prod && t.pushed == s.pushed
            && t.consView == (if step.LoadWrite? then t.consView else s.consView)
            && t.popped == (if step.Release? && s.cons.CCopying? && |s.cons.out| == g.words
                then s.popped + [s.cons.out] else s.popped)
            && (step.Release? && s.cons.CCopying? && |s.cons.out| == g.words ==> t.cons.CIdle?)
  {
  }

  /** What a consumer's step can show about how much is left. */
  lemma PopProgress(g: RP.Geometry, s: RP.State<Word>, step: RP.Step<Word>)
    requires RP.Inv(g, s)
    ensures s.consView <= RP.Apply(g, s, step).consView <= |RP.Apply(g, s, step).pushed|
    ensures step.CheckEmpty? && s.cons.CSeen? && RP.Apply(g, s, step).cons.CIdle? ==> |s.popped| == s.consView
    ensures s.cons.CCopying? ==> |s.popped| < |s.pushed|
  {
    RP.StepKeepsInv(g, s, step);
    if s.cons.CSeen? {
      RP.EmptyIsEmpty(g, s);
    }
  }

  /** A step of a drain changes the ring being drained, and pops at most its oldest record. */
  lemma PopEffect(g: RP.Geometry, s: State, step: RP.Step<Word>)
    requires Shape(g, s)
    ensures var s' := DoPop(g, s, step);
            s' == s ||
            (&& (step.BeginPop? || step.LoadWrite? || step.CheckEmpty? || step.CopyWordOut? || step.Release?)
             && s.mutex.Draining? && s.mutex.at < |s.producers| && |s.log| == s.written
             && var at, p := s.mutex.at, s.producers[s.mutex.at];
                var q := RingStep(g, p, step);
                && q.owner == p.owner && q.dropped == p.dropped
                && q.ring.prod == p.ring.prod && q.ring.pushed == p.ring.pushed
                && s' == s.(producers := s.producers[at := q], log := s'.log, mutex := s'.mutex)
                && (if step.Release? then
                      && p.ring.cons.CCopying? && q.ring.cons.CIdle? && q.ring.consView == p.ring.consView
                      && q.ring.popped == p.ring.popped + [p.ring.cons.out]
                      && s'.log == s.log + [Entry(at, |p.ring.popped|, p.ring.cons.out)]
                    else
                      q.ring.popped == p.ring.popped && s'.log == s.log)
                && (s'.mutex == s.mutex ||
                    (&& step.CheckEmpty? && p.ring.cons.CSeen? && q.ring.cons.CIdle?
                     && s'.mutex == Draining(s.mutex.who, at + 1))))
  {
    hide RP.Inv; hide RP.Apply; hide RP.Shape;
    if DoPop(g, s, step) != s {
      ConsumerStepFrame(g, s.producers[s.mutex.at].ring, step);
    }
  }

  /** The call a thread is in after a step of its push took ring `q` to its new state. */
  function CallAfter(call: Call, q: RP.State<Word>, step: RP.Step<Word>): Call
    requires call.Stamped? || call.Pushing?
  {
    if call.Stamped? then Pushing(call.ring, call.rec)
    else if !q.prod.PIdle? then call
    else if step.Publish? then Idle
    else Refused(call.ring)
  }

  /** A step of a push changes one ring and its thread's call, and nothing else. */
  lemma PushEffect(g: RP.Geometry, s: State, t: nat, step: RP.Step<Word>)
    requires StructInv(g, s)
    ensures var s' := DoPush(g, s, t, step);
            s' == s ||
            (&& t < |s.threads|
             && (s.threads[t].call.Stamped? || s.threads[t].call.Pushing?)
             && (step.BeginPush? || step.LoadRead? || step.CheckFull? || step.CopyWordIn? || step.Publish?)
             && var call := s.threads[t].call;
                && call.ring < |s.producers|
                && s.producers[call.ring].owner == t
                && s.threads[t].cached == Some(call.ring)
                && var q := RingStep(g, s.producers[call.ring], step);
                   && s' == SetCall(s.(producers := s.producers[call.ring := q]), t, CallAfter(call, q.ring, step))
                   && (CallAfter(call, q.ring, step).Pushing? <==> !q.ring.prod.PIdle?)
                   && (!q.ring.prod.PIdle? ==> q.ring.prod.rec == call.rec))
  {
    hide RP.Inv; hide RP.Apply; hide RP.Shape;
    var s' := DoPush(g, s, t, step);
    if s' != s {
      var call := s.threads[t].call;
      assert ThreadOk(g, s.producers, t, s.threads[t]);
      assert ProducerOk(s, call.ring);
      ProducerStepFrame(g, s.producers[call.ring].ring, step);
      var th := s.threads[t];
      assert th == th.(call := call);
      assert s.threads == s.threads[t := th];
    }
  }

  lemma PushKeepsStruct(g: RP.Geometry, s: State, t: nat, step: RP.Step<Word>)
    requires StructInv(g, s)
    ensures StructInv(g, DoPush(g, s, t, step))
  {
    hide RP.Inv; hide RP.Apply; hide RP.Shape; hide DoPush;
    PushEffect(g, s, t, step);
    var s' := DoPush(g, s, t, step);
    if s' != s {
      var ring := s.threads[t].call.ring;
      assert ThreadOk(g, s.producers, t, s.threads[t]);
      assert ProducerOk(s, ring);
      RP.StepKeepsInv(g, s.producers[ring].ring, step);
      ProducerStepFrame(g, s.producers[ring].ring, step);
      forall u | 0 <= u < |s.threads| ensures ThreadOk(g, s'.producers, u, s'.threads[u]) {
        assert ThreadOk(g, s.producers, u, s.threads[u]);
      }
      forall r | 0 <= r < |s'.producers| ensures ProducerOk(s', r) {
        assert ProducerOk(s, r);
      }
    }
  }

  lemma ThreadKeepsStruct(g: RP.Geometry, s: State, step: Step)
    requires StructInv(g, s)
    requires ThreadStep(step)
    ensures StructInv(g, DoThread(g, s, step))
  {
    hide RP.Inv; hide RP.Shape;
    var s' := DoThread(g, s, step);
    if s' != s {
      assert ThreadOk(g, s.producers, step.t, s.threads[step.t]);
      forall u | 0 <= u < |s.threads| ensures ThreadOk(g, s'.producers, u, s'.threads[u]) {
        assert ThreadOk(g, s.producers, u, s.threads[u]);
      }
      forall r | 0 <= r < |s'.producers| ensures ProducerOk(s', r) {
        assert ProducerOk(s, r);
      }
    }
  }

  lemma PopKeepsStruct(g: RP.Geometry, s: State, step: RP.Step<Word>)
    requires StructInv(g, s)
    ensures StructInv(g, DoPop(g, s, step))
  {
    hide RP.Inv; hide RP.Apply; hide RP.Shape; hide DoPop;
    PopEffect(g, s, step);
    var s' := DoPop(g, s, step);
    if s' != s {
      var at := s.mutex.at;
      RP.StepKeepsInv(g, s.producers[at].ring, step);
      forall u | 0 <= u < |s.threads| ensures ThreadOk(g, s'.producers, u, s'.threads[u]) {
        assert ThreadOk(g, s.producers, u, s.threads[u]);
      }
      forall r | 0 <= r < |s'.producers| ensures ProducerOk(s', r) {
        assert ProducerOk(s, r);
      }
    }
  }

  /** Starting a drain may make publishes visible, and changes nothing else in the rings. */
  lemma BeginDrainKeepsStruct(g: RP.Geometry, s: State, who: Who)
    requires StructInv(g, s)
    ensures StructInv(g, DoMutex(g, s, BeginDrain(who)))
  {
    hide RP.Inv; hide RP.Shape; hide RP.Apply;
    var s' := DoMutex(g, s, BeginDrain(who));
    forall r | 0 <= r < |s.producers| ensures RP.Inv(g, s'.producers[r].ring)
        && SameUser(s.producers[r], s'.producers[r]) {
      SyncedInv(g, s.producers[r]);
      SyncedUser(g, s.producers[r]);
    }
    forall u | 0 <= u < |s.threads| ensures ThreadOk(g, s'.producers, u, s'.threads[u]) {
      assert ThreadOk(g, s.producers, u, s.threads[u]);
    }
    forall r | 0 <= r < |s'.producers| ensures ProducerOk(s', r) {
      assert ProducerOk(s, r);
    }
  }

  lemma MutexKeepsStruct(g: RP.Geometry, s: State, step: Step)
    requires StructInv(g, s)
    requires MutexStep(step)
    ensures StructInv(g, DoMutex(g, s, step))
  {
    hide RP.Inv; hide RP.Shape; hide RP.Apply; hide ThreadOk; hide SyncAll;
    if step.BeginDrain? {
      BeginDrainKeepsStruct(g, s, step.who);
    } else {
      var s' := DoMutex(g, s, step);
      assert s'.producers == s.producers && s'.threads == s.threads;
      forall r | 0 <= r < |s'.producers| ensures ProducerOk(s', r) {
        assert ProducerOk(s, r);
      }
    }
  }

  lemma SinkKeepsStruct(g: RP.Geometry, s: State, step: Step)
    requires StructInv(g, s)
    requires SinkStep(step)
    ensures StructInv(g, DoSink(g, s, step))
  {
    hide RP.Inv; hide RP.Shape;
    var s' := DoSink(g, s, step);
    forall r | 0 <= r < |s'.producers| ensures ProducerOk(s', r) {
      assert ProducerOk(s, r);
    }
  }

  lemma StepKeepsStruct(g: RP.Geometry, s: State, step: Step)
    requires StructInv(g, s)
    ensures StructInv(g, Apply(g, s, step))
  {
    hide StructInv;
    hide DoRegister; hide DoPush; hide DoPop; hide DoThread; hide DoMutex; hide DoSink;
    if step.Register? {
      RegisterKeepsStruct(g, s, step.t);
    } else if step.Push? {
      PushKeepsStruct(g, s, step.t, step.step);
    } else if step.Pop? {
      PopKeepsStruct(g, s, step.step);
    } else if ThreadStep(step) {
      ThreadKeepsStruct(g, s, step);
    } else if MutexStep(step) {
      MutexKeepsStruct(g, s, step);
    } else {
      SinkKeepsStruct(g, s, step);
    }
  }
}
