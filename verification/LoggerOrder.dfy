/**
 Per-thread order: whatever rings a thread has owned, its records are written in
 the order it stamped them.
 */
module LoggerOrder {
  import opened Words
  import opened LoggerProtocol
  import opened LoggerStructure
  import RP = RingProtocol

  /** Once a thread has moved on to a newer ring, everything in the old one is visible to the drainer. */
  ghost predicate FrozenInv(ps: seq<Producer>) {
    forall r :: 0 <= r < |ps| && !IsLast(ps, r) ==> ps[r].ring.consView == |ps[r].ring.pushed|
  }

  /** A ring the current drain has passed is empty, if its thread has moved on. */
  ghost predicate DrainInv(s: State) {
    s.mutex.Draining? ==>
      forall r :: 0 <= r < s.mutex.at && r < |s.producers| && !IsLast(s.producers, r) ==>
        |s.producers[r].ring.popped| == |s.producers[r].ring.pushed|
  }

  /** A thread's newer ring is only popped from once its older ones are empty. */
  ghost predicate PopOrder(ps: seq<Producer>) {
    forall a, b :: 0 <= a < b < |ps| && ps[a].owner == ps[b].owner && ps[b].ring.popped != [] ==>
      |ps[a].ring.popped| == |ps[a].ring.pushed|
  }

  ghost predicate Placed(ps: seq<Producer>, e: Entry) {
    e.ring < |ps| && e.pos < |ps[e.ring].ring.popped| && e.rec == ps[e.ring].ring.popped[e.pos]
  }

  ghost predicate Earlier(e: Entry, f: Entry) {
    e.ring < f.ring || (e.ring == f.ring && e.pos < f.pos)
  }

  ghost predicate LogInv(ps: seq<Producer>, log: seq<Entry>) {
    && (forall p :: 0 <= p < |log| ==> Placed(ps, log[p]))
    && (forall p, q :: 0 <= p < q < |log| && ps[log[p].ring].owner == ps[log[q].ring].owner ==> Earlier(log[p], log[q]))
  }

  /** The stamp of the `j`-th record published into a ring. */
  function StampAt(p: Producer, j: nat): nat
    requires j < |p.ring.pushed|
  {
    TicketOf(p.ring.pushed[j])
  }

  ghost predicate BelowTicket(p: Producer, bound: nat) {
    forall j :: 0 <= j < |p.ring.pushed| ==> StampAt(p, j) < bound
  }

  ghost predicate StampsIncrease(p: Producer) {
    forall j, k :: 0 <= j < k < |p.ring.pushed| ==> StampAt(p, j) < StampAt(p, k)
  }

  ghost predicate StampsBefore(p: Producer, q: Producer) {
    forall j, k :: 0 <= j < |p.ring.pushed| && 0 <= k < |q.ring.pushed| ==> StampAt(p, j) < StampAt(q, k)
  }

  ghost predicate StampInv(ps: seq<Producer>, nextTicket: nat) {
    && (forall r :: 0 <= r < |ps| ==> BelowTicket(ps[r], nextTicket) && StampsIncrease(ps[r]))
    && (forall a, b :: 0 <= a < b < |ps| && ps[a].owner == ps[b].owner ==> StampsBefore(ps[a], ps[b]))
  }

  /** A stamped record that is not yet published is newer than all its thread has published. */
  ghost predicate HeldInv(s: State) {
    forall t :: 0 <= t < |s.threads| && (s.threads[t].call.Stamped? || s.threads[t].call.Pushing?) ==>
      && TicketOf(s.threads[t].call.rec) < s.nextTicket
      && forall r :: 0 <= r < |s.producers| && s.producers[r].owner == t
          ==> BelowTicket(s.producers[r], TicketOf(s.threads[t].call.rec))
  }

  ghost predicate OrderInv(s: State) {
    && FrozenInv(s.producers) && DrainInv(s) && PopOrder(s.producers) && LogInv(s.producers, s.log)
    && StampInv(s.producers, s.nextTicket) && HeldInv(s)
  }

  /** Two rings with the same owner and the same history, whatever is going on inside them. */
  ghost predicate SameHistory(p: Producer, q: Producer) {
    && q.owner == p.owner && q.ring.pushed == p.ring.pushed && q.ring.popped == p.ring.popped
    && (q.ring.consView == p.ring.consView || q.ring.consView == |p.ring.pushed|)
  }

  ghost predicate SameHistories(ps: seq<Producer>, qs: seq<Producer>) {
    |ps| == |qs| && forall r :: 0 <= r < |ps| ==> SameHistory(ps[r], qs[r])
  }

  lemma SameOwnersSameLast(ps: seq<Producer>, qs: seq<Producer>)
    requires |ps| == |qs| && forall r :: 0 <= r < |ps| ==> qs[r].owner == ps[r].owner
    ensures forall r :: 0 <= r < |ps| ==> (IsLast(qs, r) <==> IsLast(ps, r))
  {
    forall r | 0 <= r < |ps| ensures IsLast(qs, r) <==> IsLast(ps, r) {
      if IsLast(ps, r) {
        forall q | r < q < |qs| ensures qs[q].owner != qs[r].owner {
          assert ps[q].owner != ps[r].owner;
        }
      }
      if IsLast(qs, r) {
        forall q | r < q < |ps| ensures ps[q].owner != ps[r].owner {
          assert qs[q].owner != qs[r].owner;
        }
      }
    }
  }

  lemma SameStamps(s: State, s': State)
    requires StampInv(s.producers, s.nextTicket) && HeldInv(s) && SameHistories(s.producers, s'.producers)
    requires |s'.threads| == |s.threads| && s'.nextTicket == s.nextTicket
    requires forall t :: 0 <= t < |s.threads| && (s'.threads[t].call.Stamped? || s'.threads[t].call.Pushing?) ==>
               (s.threads[t].call.Stamped? || s.threads[t].call.Pushing?)
                   && s'.threads[t].call.rec == s.threads[t].call.rec
    ensures StampInv(s'.producers, s'.nextTicket) && HeldInv(s')
  {
    var ps, qs := s.producers, s'.producers;
    forall r, bound: nat | 0 <= r < |ps| && BelowTicket(ps[r], bound) ensures BelowTicket(qs[r], bound) {
      forall j | 0 <= j < |qs[r].ring.pushed| ensures StampAt(qs[r], j) < bound {
        assert StampAt(ps[r], j) < bound;
      }
    }
    forall r | 0 <= r < |ps| ensures StampsIncrease(qs[r]) {
      assert StampsIncrease(ps[r]);
      forall j, k | 0 <= j < k < |qs[r].ring.pushed| ensures StampAt(qs[r], j) < StampAt(qs[r], k) {
        assert StampAt(ps[r], j) < StampAt(ps[r], k);
      }
    }
    forall a, b | 0 <= a < b < |qs| && qs[a].owner == qs[b].owner ensures StampsBefore(qs[a], qs[b]) {
      assert StampsBefore(ps[a], ps[b]);
      forall j, k | 0 <= j < |qs[a].ring.pushed| && 0 <= k < |qs[b].ring.pushed|
          ensures StampAt(qs[a], j) < StampAt(qs[b], k) {
        assert StampAt(ps[a], j) < StampAt(ps[b], k);
      }
    }
  }

  lemma SameHistoriesKeepOrder(s: State, s': State)
    requires OrderInv(s) && SameHistories(s.producers, s'.producers)
    requires s'.log == s.log && |s'.threads| == |s.threads| && s'.nextTicket == s.nextTicket
    requires s'.mutex.Draining? ==> s'.mutex.at == 0 || (s.mutex.Draining? && s'.mutex.at == s.mutex.at)
    requires forall t :: 0 <= t < |s.threads| && (s'.threads[t].call.Stamped? || s'.threads[t].call.Pushing?) ==>
               (s.threads[t].call.Stamped? || s.threads[t].call.Pushing?)
                   && s'.threads[t].call.rec == s.threads[t].call.rec
    ensures OrderInv(s')
  {
    var ps, qs := s.producers, s'.producers;
    SameOwnersSameLast(ps, qs);
    assert FrozenInv(qs) && DrainInv(s') && PopOrder(qs);
    assert LogInv(qs, s'.log);
    SameStamps(s, s');
  }

  lemma SyncedHistory(g: RP.Geometry, p: Producer)
    requires RP.Inv(g, p.ring)
    ensures SameHistory(p, Synced(g, p))
    ensures p.ring.cons.CIdle? ==> Synced(g, p).ring.consView == |p.ring.pushed|
  {
  }

  lemma PublishKeepsStamps(ps: seq<Producer>, r: nat, q: Producer, rec: Record, nextTicket: nat)
    requires r < |ps| && IsLast(ps, r) && StampInv(ps, nextTicket)
    requires q.owner == ps[r].owner && q.ring.pushed == ps[r].ring.pushed + [rec]
    requires TicketOf(rec) < nextTicket
    requires forall a :: 0 <= a < |ps| && ps[a].owner == ps[r].owner ==> BelowTicket(ps[a], TicketOf(rec))
    ensures StampInv(ps[r := q], nextTicket)
  {
    var n := |ps[r].ring.pushed|;
    assert StampAt(q, n) == TicketOf(rec);
    forall j | 0 <= j < n ensures StampAt(q, j) == StampAt(ps[r], j) {
    }
    assert BelowTicket(ps[r], TicketOf(rec)) && BelowTicket(ps[r], nextTicket);
    assert StampsIncrease(ps[r]);
    forall a | 0 <= a < r && ps[a].owner == q.owner ensures StampsBefore(ps[a], q) {
      assert StampsBefore(ps[a], ps[r]) && BelowTicket(ps[a], TicketOf(rec));
    }
  }

  /** Publishing into a thread's newest ring disturbs none of its older ones. */
  lemma PublishKeepsRest(s: State, s': State, r: nat)
    requires OrderInv(s) && r < |s.producers| && IsLast(s.producers, r)
    requires |s'.producers| == |s.producers| && s'.producers == s.producers[r := s'.producers[r]]
    requires s'.producers[r].owner == s.producers[r].owner
    requires s'.producers[r].ring.popped == s.producers[r].ring.popped
    requires s'.log == s.log && s'.nextTicket == s.nextTicket && s'.mutex == s.mutex
    requires s.producers[r].owner < |s.threads| == |s'.threads|
    requires s'.threads == s.threads[s.producers[r].owner := s'.threads[s.producers[r].owner]]
    requires s'.threads[s.producers[r].owner].call.Idle?
    ensures FrozenInv(s'.producers) && DrainInv(s') && PopOrder(s'.producers) && LogInv(s'.producers, s'.log)
        && HeldInv(s')
  {
    var ps, qs := s.producers, s'.producers;
    SameOwnersSameLast(ps, qs);
    forall a, b | 0 <= a < b < |qs| && qs[a].owner == qs[b].owner && qs[b].ring.popped != []
      ensures |qs[a].ring.popped| == |qs[a].ring.pushed|
    {
      assert a != r;
    }
  }

  lemma PushKeepsOrder(g: RP.Geometry, s: State, t: nat, step: RP.Step<Word>)
    requires StructInv(g, s) && OrderInv(s)
    ensures OrderInv(DoPush(g, s, t, step))
  {
    hide RP.Inv; hide RP.Apply; hide RP.Shape; hide DoPush;
    PushEffect(g, s, t, step);
    var s' := DoPush(g, s, t, step);
    if s' != s {
      var call := s.threads[t].call;
      var p, q := s.producers[call.ring], s'.producers[call.ring];
      ProducerStepFrame(g, p.ring, step);
      assert ThreadOk(g, s.producers, t, s.threads[t]);
      if q.ring.pushed == p.ring.pushed {
        SameHistoriesKeepOrder(s, s');
      } else {
        assert call.Pushing? && p.ring.prod.rec == call.rec;
        PublishKeepsStamps(s.producers, call.ring, q, call.rec, s.nextTicket);
        PublishKeepsRest(s, s', call.ring);
      }
    }
  }

  lemma NewRingKeepsStamps(ps: seq<Producer>, q: Producer, nextTicket: nat)
    requires StampInv(ps, nextTicket) && q.ring.pushed == []
    ensures StampInv(ps + [q], nextTicket)
  {
  }

  lemma RegisterKeepsOrder(g: RP.Geometry, s: State, t: nat)
    requires StructInv(g, s) && OrderInv(s)
    ensures OrderInv(DoRegister(g, s, t))
  {
    hide RP.Inv; hide RP.Apply; hide RP.Shape; hide Synced;
    var s' := DoRegister(g, s, t);
    if s' != s {
      var ps, qs := s.producers, s'.producers;
      forall r | 0 <= r < |ps|
        ensures SameHistory(ps[r], qs[r]) && (ps[r].owner == t ==> qs[r].ring.consView == |ps[r].ring.pushed|)
      {
        assert ProducerOk(s, r);
        SyncedHistory(g, ps[r]);
      }
      var mid := s.(producers := qs[..|ps|], threads := s'.threads);
      SameHistoriesKeepOrder(s, mid);
      forall r | 0 <= r < |ps| && ps[r].owner != t ensures IsLast(qs, r) <==> IsLast(qs[..|ps|], r) {
        assert IsLast(qs[..|ps|], r) ==> IsLast(qs, r);
        if IsLast(qs, r) {
          forall q | r < q < |ps| ensures qs[..|ps|][q].owner != qs[..|ps|][r].owner {
            assert qs[q].owner != qs[r].owner;
          }
        }
      }
      assert FrozenInv(qs);
      NewRingKeepsStamps(qs[..|ps|], qs[|ps|], s.nextTicket);
      assert qs == qs[..|ps|] + [qs[|ps|]];
    }
  }

  lemma ThreadKeepsOrder(g: RP.Geometry, s: State, step: Step)
    requires StructInv(g, s) && OrderInv(s)
    requires ThreadStep(step)
    ensures OrderInv(DoThread(g, s, step))
  {
    hide RP.Inv; hide RP.Shape;
    var s' := DoThread(g, s, step);
    if s' != s {
      assert ThreadOk(g, s.producers, step.t, s.threads[step.t]);
      if step.TakeTicket? {
        assert TicketOf(s'.threads[step.t].call.rec) == s.nextTicket;
        forall r | 0 <= r < |s.producers| ensures BelowTicket(s.producers[r], s.nextTicket + 1) {
          assert BelowTicket(s.producers[r], s.nextTicket);
        }
        assert HeldInv(s');
      } else {
        SameHistoriesKeepOrder(s, s');
      }
    }
  }

  /** Taking the oldest record of the ring being drained keeps the pop order and extends the log in order. */
  lemma ReleaseKeepsOrder(s: State, s': State, at: nat, rec: Record)
    requires OrderInv(s) && s.mutex.Draining? && s.mutex.at == at < |s.producers|
    requires forall r :: 0 <= r < |s.producers| ==> |s.producers[r].ring.popped| <= |s.producers[r].ring.pushed|
    requires |s.producers[at].ring.popped| < |s.producers[at].ring.pushed|
    requires |s'.producers| == |s.producers| && s'.producers == s.producers[at := s'.producers[at]]
    requires s'.producers[at].owner == s.producers[at].owner
    requires s'.producers[at].ring.pushed == s.producers[at].ring.pushed
    requires s'.producers[at].ring.consView == s.producers[at].ring.consView
    requires s'.producers[at].ring.popped == s.producers[at].ring.popped + [rec]
    requires s'.log == s.log + [Entry(at, |s.producers[at].ring.popped|, rec)]
    requires s'.mutex == s.mutex
    ensures FrozenInv(s'.producers) && DrainInv(s') && PopOrder(s'.producers) && LogInv(s'.producers, s'.log)
  {
    var ps, qs := s.producers, s'.producers;
    SameOwnersSameLast(ps, qs);
    forall a, b | 0 <= a < b < |qs| && qs[a].owner == qs[b].owner && qs[b].ring.popped != []
      ensures |qs[a].ring.popped| == |qs[a].ring.pushed|
    {
      if b == at {
        assert !IsLast(ps, a);
      }
    }
    forall p | 0 <= p < |s.log| && ps[s.log[p].ring].owner == ps[at].owner
      ensures Earlier(s.log[p], s'.log[|s.log|])
    {
      assert Placed(ps, s.log[p]);
      assert ps[s.log[p].ring].ring.popped != [];
    }
  }

  lemma SameStampsAfterPop(s: State, s': State, at: nat)
    requires StampInv(s.producers, s.nextTicket) && HeldInv(s) && at < |s.producers|
    requires |s'.producers| == |s.producers| && s'.producers == s.producers[at := s'.producers[at]]
    requires s'.producers[at].owner == s.producers[at].owner
        && s'.producers[at].ring.pushed == s.producers[at].ring.pushed
    requires s'.threads == s.threads && s'.nextTicket == s.nextTicket
    ensures StampInv(s'.producers, s'.nextTicket) && HeldInv(s')
  {
    var p, q := s.producers[at], s'.producers[at];
    forall bound: nat | BelowTicket(p, bound) ensures BelowTicket(q, bound) {
      forall j | 0 <= j < |q.ring.pushed| ensures StampAt(q, j) < bound {
        assert StampAt(p, j) < bound;
      }
    }
    assert StampsIncrease(p);
    forall j, k | 0 <= j < k < |q.ring.pushed| ensures StampAt(q, j) < StampAt(q, k) {
      assert StampAt(p, j) < StampAt(p, k);
    }
    forall a, b | 0 <= a < b < |s.producers| && s.producers[a].owner == s.producers[b].owner
      ensures StampsBefore(s'.producers[a], s'.producers[b])
    {
      assert StampsBefore(s.producers[a], s.producers[b]);
      forall j, k | 0 <= j < |s'.producers[a].ring.pushed| && 0 <= k < |s'.producers[b].ring.pushed|
        ensures StampAt(s'.producers[a], j) < StampAt(s'.producers[b], k)
      {
        assert StampAt(s.producers[a], j) < StampAt(s.producers[b], k);
      }
    }
  }

  /** Moving the consumer's view forward, or moving on from a ring seen empty, keeps the order. */
  lemma ViewKeepsOrder(s: State, s': State, at: nat)
    requires OrderInv(s) && s.mutex.Draining? && s.mutex.at == at < |s.producers|
    requires |s'.producers| == |s.producers| && s'.producers == s.producers[at := s'.producers[at]]
    requires var p, q := s.producers[at], s'.producers[at];
             && q.owner == p.owner && q.ring.pushed == p.ring.pushed && q.ring.popped == p.ring.popped
             && p.ring.consView <= q.ring.consView <= |p.ring.pushed|
             && (s'.mutex == s.mutex
                 || (s'.mutex == Draining(s.mutex.who, at + 1) && |p.ring.popped| == p.ring.consView))
    requires s'.log == s.log && s'.threads == s.threads && s'.nextTicket == s.nextTicket
    ensures OrderInv(s')
  {
    var ps, qs := s.producers, s'.producers;
    SameOwnersSameLast(ps, qs);
    SameStampsAfterPop(s, s', at);
    assert PopOrder(qs);
    assert FrozenInv(qs);
    assert DrainInv(s');
  }

  lemma PoppedWithinPushed(g: RP.Geometry, s: State)
    requires StructInv(g, s)
    ensures forall r :: 0 <= r < |s.producers| ==> |s.producers[r].ring.popped| <= |s.producers[r].ring.pushed|
  {
    forall r | 0 <= r < |s.producers| ensures |s.producers[r].ring.popped| <= |s.producers[r].ring.pushed| {
      assert RP.Inv(g, s.producers[r].ring);
    }
  }

  lemma PopKeepsOrder(g: RP.Geometry, s: State, step: RP.Step<Word>)
    requires StructInv(g, s) && OrderInv(s)
    ensures OrderInv(DoPop(g, s, step))
  {
    hide RP.Inv; hide RP.Apply; hide RP.Shape; hide DoPop;
    PopEffect(g, s, step);
    PoppedWithinPushed(g, s);
    var s' := DoPop(g, s, step);
    if s' != s {
      var at := s.mutex.at;
      var p := s.producers[at];
      PopProgress(g, p.ring, step);
      if step.Release? {
        ReleaseKeepsOrder(s, s', at, p.ring.cons.out);
        SameStampsAfterPop(s, s', at);
      } else {
        ViewKeepsOrder(s, s', at);
      }
    }
  }

  lemma SameHistoriesReflexive(ps: seq<Producer>)
    ensures SameHistories(ps, ps)
  {
  }

  lemma BeginDrainKeepsOrder(g: RP.Geometry, s: State, who: Who)
    requires StructInv(g, s) && OrderInv(s)
    ensures OrderInv(DoMutex(g, s, BeginDrain(who)))
  {
    hide RP.Inv; hide RP.Apply; hide RP.Shape; hide Synced; hide OrderInv;
    var s' := DoMutex(g, s, BeginDrain(who));
    forall r | 0 <= r < |s.producers| ensures SameHistory(s.producers[r], s'.producers[r]) {
      SyncedHistory(g, s.producers[r]);
    }
    SameHistoriesKeepOrder(s, s');
  }

  lemma MutexKeepsOrder(g: RP.Geometry, s: State, step: Step)
    requires StructInv(g, s) && OrderInv(s)
    requires MutexStep(step)
    ensures OrderInv(DoMutex(g, s, step))
  {
    hide StructInv; hide RP.Shape; hide OrderInv; hide SyncAll; hide SameHistories;
    ShapeOf(g, s);
    if step.BeginDrain? {
      BeginDrainKeepsOrder(g, s, step.who);
    } else {
      SameHistoriesReflexive(s.producers);
      SameHistoriesKeepOrder(s, DoMutex(g, s, step));
    }
  }

  lemma SinkKeepsOrder(g: RP.Geometry, s: State, step: Step)
    requires StructInv(g, s) && OrderInv(s)
    requires SinkStep(step)
    ensures OrderInv(DoSink(g, s, step))
  {
    hide StructInv; hide RP.Shape; hide OrderInv; hide SameHistories;
    ShapeOf(g, s);
    SameHistoriesReflexive(s.producers);
    SameHistoriesKeepOrder(s, DoSink(g, s, step));
  }

  lemma StepKeepsOrder(g: RP.Geometry, s: State, step: Step)
    requires StructInv(g, s) && OrderInv(s)
    ensures OrderInv(Apply(g, s, step))
  {
    hide StructInv; hide OrderInv;
    hide DoRegister; hide DoPush; hide DoPop; hide DoThread; hide DoMutex; hide DoSink;
    if step.Register? {
      RegisterKeepsOrder(g, s, step.t);
    } else if step.Push? {
      PushKeepsOrder(g, s, step.t, step.step);
    } else if step.Pop? {
      PopKeepsOrder(g, s, step.step);
    } else if ThreadStep(step) {
      ThreadKeepsOrder(g, s, step);
    } else if MutexStep(step) {
      MutexKeepsOrder(g, s, step);
    } else {
      SinkKeepsOrder(g, s, step);
    }
  }

  lemma {:induction false} RunKeepsOrder(g: RP.Geometry, s: State, steps: seq<Step>)
    requires StructInv(g, s) && OrderInv(s)
    ensures StructInv(g, After(g, s, steps)) && OrderInv(After(g, s, steps))
    decreases |steps|
  {
    hide OrderInv; hide Apply;
    if steps == [] {
    } else {
      StepKeepsStruct(g, s, steps[0]);
      StepKeepsOrder(g, s, steps[0]);
      RunKeepsOrder(g, Apply(g, s, steps[0]), steps[1..]);
    }
  }

  lemma InitialOrder(g: RP.Geometry, s: State)
    requires Initial(g, s)
    ensures StructInv(g, s) && OrderInv(s)
  {
  }

  /** A popped entry carries the stamp its record was published with. */
  lemma EntryStamp(g: RP.Geometry, s: State, p: nat)
    requires StructInv(g, s) && OrderInv(s) && p < |s.log|
    ensures var e := s.log[p];
            && e.ring < |s.producers| && e.pos < |s.producers[e.ring].ring.pushed|
            && TicketOf(e.rec) == StampAt(s.producers[e.ring], e.pos)
  {
    var e := s.log[p];
    assert Placed(s.producers, e);
    assert RP.Inv(g, s.producers[e.ring].ring);
  }

  lemma OrderedEntries(s: State, p: nat, q: nat)
    requires OrderInv(s) && p < q < |s.log|
    requires forall i :: i in {p, q} ==>
               && s.log[i].ring < |s.producers| && s.log[i].pos < |s.producers[s.log[i].ring].ring.pushed|
               && TicketOf(s.log[i].rec) == StampAt(s.producers[s.log[i].ring], s.log[i].pos)
    ensures var e, f := s.log[p], s.log[q];
            && TicketOf(e.rec) < s.nextTicket && TicketOf(f.rec) < s.nextTicket
            && (s.producers[e.ring].owner == s.producers[f.ring].owner ==> TicketOf(e.rec) < TicketOf(f.rec))
  {
    var e, f := s.log[p], s.log[q];
    var a, b := s.producers[e.ring], s.producers[f.ring];
    assert p in {p, q} && q in {p, q};
    assert BelowTicket(a, s.nextTicket) && BelowTicket(b, s.nextTicket);
    if a.owner == b.owner {
      assert Earlier(e, f);
      if e.ring == f.ring {
        assert StampsIncrease(a);
      } else {
        assert StampsBefore(a, b);
      }
    }
  }

  /**
   In every reachable state, the records one thread has had written, through all
   the rings it ever owned here, carry strictly increasing stamps.
   */
  lemma ThreadRecordsWrittenInOrder(g: RP.Geometry, s0: State, steps: seq<Step>, p: nat, q: nat)
    requires Initial(g, s0)
    requires p < q < |After(g, s0, steps).log|
    ensures var s := After(g, s0, steps);
            var e, f := s.log[p], s.log[q];
            && e.ring < |s.producers| && f.ring < |s.producers|
            && TicketOf(e.rec) < s.nextTicket && TicketOf(f.rec) < s.nextTicket
            && (s.producers[e.ring].owner == s.producers[f.ring].owner ==> TicketOf(e.rec) < TicketOf(f.rec))
  {
    InitialOrder(g, s0);
    RunKeepsOrder(g, s0, steps);
    var s := After(g, s0, steps);
    EntryStamp(g, s, p);
    EntryStamp(g, s, q);
    OrderedEntries(s, p, q);
  }

  /**
   The same for the 64-bit `seq` field itself, for as long as the logger has
   taken no more than 2^64 stamps.
   */
  lemma ThreadSeqIncreases(g: RP.Geometry, s0: State, steps: seq<Step>, p: nat, q: nat)
    requires Initial(g, s0)
    requires p < q < |After(g, s0, steps).log|
    requires After(g, s0, steps).nextTicket <= TWO64
    ensures var s := After(g, s0, steps);
            var e, f := s.log[p], s.log[q];
            && e.ring < |s.producers| && f.ring < |s.producers|
            && (s.producers[e.ring].owner == s.producers[f.ring].owner
                ==> TicketOf(e.rec) % TWO64 < TicketOf(f.rec) % TWO64)
  {
    hide After;
    ThreadRecordsWrittenInOrder(g, s0, steps, p, q);
    var s := After(g, s0, steps);
    assert forall i :: i in {p, q} ==> TicketOf(s.log[i].rec) % TWO64 == TicketOf(s.log[i].rec);
  }
}
