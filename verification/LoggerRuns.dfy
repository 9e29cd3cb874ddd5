/**
 What the logger achieves when it is let run: a call that goes through, a record
 that is drained, and the sink thread from start to join. The other results say
 what no interleaving can break; these say that there are interleavings.
 */
module LoggerRuns {
  import opened LoggerProtocol
  import opened LoggerStructure
  import opened Wrappers
  import RP = RingProtocol
  import BoundedFifo

  lemma {:induction false} AfterBoth(g: RP.Geometry, s: State, first: seq<Step>, second: seq<Step>)
    requires Shape(g, s)
    ensures After(g, s, first + second) == After(g, After(g, s, first), second)
    decreases |first|
  {
    hide Apply;
    if first == [] {
      assert first + second == second;
    } else {
      assert (first + second)[1..] == first[1..] + second;
      AfterBoth(g, Apply(g, s, first[0]), first[1..], second);
    }
  }

  lemma AfterOne(g: RP.Geometry, s: State, step: Step)
    requires Shape(g, s)
    ensures After(g, s, [step]) == Apply(g, s, step)
  {
    hide Apply;
    assert [step][1..] == [];
    assert After(g, Apply(g, s, step), []) == Apply(g, s, step);
  }

  lemma AfterThree(g: RP.Geometry, s: State, a: Step, b: Step, c: Step)
    requires Shape(g, s)
    ensures After(g, s, [a, b, c]) == Apply(g, Apply(g, Apply(g, s, a), b), c)
  {
    hide Apply;
    assert [a, b, c] == [a] + ([b] + [c]);
    AfterBoth(g, s, [a], [b] + [c]);
    AfterOne(g, s, a);
    AfterBoth(g, Apply(g, s, a), [b], [c]);
    AfterOne(g, Apply(g, s, a), b);
    AfterOne(g, Apply(g, Apply(g, s, a), b), c);
  }

  function Pushes(t: nat, steps: seq<RP.Step<Word>>): (lifted: seq<Step>)
    ensures |lifted| == |steps| && forall i :: 0 <= i < |steps| ==> lifted[i] == Push(t, steps[i])
  {
    seq(|steps|, i requires 0 <= i < |steps| => Push(t, steps[i]))
  }

  function Pops(steps: seq<RP.Step<Word>>): (lifted: seq<Step>)
    ensures |lifted| == |steps| && forall i :: 0 <= i < |steps| ==> lifted[i] == Pop(steps[i])
  {
    seq(|steps|, i requires 0 <= i < |steps| => Pop(steps[i]))
  }

  ghost function WithRing(s: State, r: nat, ring: RP.State<Word>): State
    requires r < |s.producers|
  {
    s.(producers := s.producers[r := s.producers[r].(ring := ring)])
  }

  // A call.

  lemma {:induction false} CopiesIn(g: RP.Geometry, s: State, t: nat, r: nat, n: nat)
    requires Shape(g, s) && t < |s.threads| && s.threads[t].call.Pushing? && s.threads[t].call.ring == r < |s.producers|
    ensures After(g, s, Pushes(t, RP.Repeated(RP.CopyWordIn, n))) ==
            WithRing(s, r, RP.After(g, s.producers[r].ring, RP.Repeated(RP.CopyWordIn, n)))
    decreases n
  {
    hide RP.Apply; hide RP.Shape;
    var steps := RP.Repeated<Word>(RP.CopyWordIn, n);
    if n == 0 {
      assert s.producers[r := s.producers[r]] == s.producers;
    } else {
      var s1 := Apply(g, s, Push(t, RP.CopyWordIn));
      assert s1 == WithRing(s, r, RP.Apply(g, s.producers[r].ring, RP.CopyWordIn));
      assert steps[1..] == RP.Repeated(RP.CopyWordIn, n - 1);
      assert Pushes(t, steps)[1..] == Pushes(t, steps[1..]);
      CopiesIn(g, s1, t, r, n - 1);
    }
  }

  /** The record a call makes of its payload. */
  function StampedWith(payload: Record, ticket: nat): Record {
    if |payload| > SEQ_WORD then payload[SEQ_WORD := Stamp(ticket)] else payload
  }

  function Prologue(t: nat, payload: Record): seq<Step> {
    [Call(t, payload), UseCached(t), TakeTicket(t)]
  }

  ghost function Checking(t: nat, rec: Record, view: nat): seq<Step> {
    Pushes(t, [RP.BeginPush(rec), RP.LoadRead(view), RP.CheckFull])
  }

  lemma PrologueIs(g: RP.Geometry, s: State, t: nat, payload: Record)
    requires Shape(g, s) && t < |s.threads| && |payload| == g.words
    requires s.threads[t].call.Idle? && s.threads[t].cached.Some?
    ensures Apply(g, Apply(g, Apply(g, s, Call(t, payload)), UseCached(t)), TakeTicket(t)) ==
            SetCall(s.(accepted := s.accepted + 1, quiet := false, nextTicket := s.nextTicket + 1),
                    t, Stamped(s.threads[t].cached.value, StampedWith(payload, s.nextTicket)))
  {
    hide RP.Inv; hide RP.Apply; hide RP.Shape;
    var s1 := Apply(g, s, Call(t, payload));
    var s2 := Apply(g, s1, UseCached(t));
    var s3 := Apply(g, s2, TakeTicket(t));
    assert s3.threads == s.threads[t := s.threads[t].(call := s3.threads[t].call)];
  }

  lemma CheckingIs(g: RP.Geometry, s: State, t: nat, r: nat, rec: Record, view: nat)
    requires Shape(g, s) && t < |s.threads| && r < |s.producers| && |rec| == g.words
    requires s.threads[t].call == Stamped(r, rec)
    ensures var ring := RP.Apply(g,
        RP.Apply(g, RP.Apply(g, s.producers[r].ring, RP.BeginPush(rec)), RP.LoadRead(view)), RP.CheckFull);
            Apply(g, Apply(g, Apply(g, s, Push(t, RP.BeginPush(rec))), Push(t, RP.LoadRead(view))),
                Push(t, RP.CheckFull)) ==
            SetCall(WithRing(s, r, ring), t, if ring.prod.PIdle? then Refused(r) else Pushing(r, rec))
  {
    hide RP.Inv; hide RP.Apply; hide RP.Shape;
    var s1 := Apply(g, s, Push(t, RP.BeginPush(rec)));
    var s2 := Apply(g, s1, Push(t, RP.LoadRead(view)));
    var s3 := Apply(g, s2, Push(t, RP.CheckFull));
    assert s3.threads == s.threads[t := s.threads[t].(call := s3.threads[t].call)];
    assert s3.producers == s.producers[r := s3.producers[r]];
  }

  /** The first three steps of a push. */
  lemma CheckingRuns(g: RP.Geometry, s: State, t: nat, r: nat, rec: Record)
    requires Shape(g, s) && t < |s.threads| && r < |s.producers| && |rec| == g.words
    requires s.threads[t].call == Stamped(r, rec)
    ensures var ring := s.producers[r].ring;
            var checked := RP.After(g, ring, [RP.BeginPush(rec), RP.LoadRead(|ring.popped|), RP.CheckFull]);
            After(g, s, Checking(t, rec, |ring.popped|)) ==
            SetCall(WithRing(s, r, checked), t, if checked.prod.PIdle? then Refused(r) else Pushing(r, rec))
  {
    hide RP.Inv; hide RP.Apply; hide RP.Shape; hide Apply; hide After; hide RP.After; hide SetCall; hide WithRing;
    var ring := s.producers[r].ring;
    var load: RP.Step<Word> := RP.LoadRead(|ring.popped|);
    RP.AfterThree(g, ring, RP.BeginPush(rec), load, RP.CheckFull);
    assert Pushes(t, [RP.BeginPush(rec), load, RP.CheckFull])
        == [Push(t, RP.BeginPush(rec)), Push(t, load), Push(t, RP.CheckFull)];
    AfterThree(g, s, Push(t, RP.BeginPush(rec)), Push(t, load), Push(t, RP.CheckFull));
    CheckingIs(g, s, t, r, rec, |ring.popped|);
  }

  lemma PublishIs(g: RP.Geometry, s: State, t: nat, r: nat, rec: Record)
    requires Shape(g, s) && t < |s.threads| && r < |s.producers| && s.threads[t].call == Pushing(r, rec)
    requires RP.Apply(g, s.producers[r].ring, RP.Publish).prod.PIdle?
    ensures Apply(g, s, Push(t, RP.Publish))
        == SetCall(WithRing(s, r, RP.Apply(g, s.producers[r].ring, RP.Publish)), t, Idle)
  {
    hide RP.Inv; hide RP.Apply; hide RP.Shape;
  }

  /** The rest of a push that found room. */
  lemma PushEnds(g: RP.Geometry, s: State, t: nat, r: nat, rec: Record)
    requires Shape(g, s) && t < |s.threads| && r < |s.producers|
    requires s.threads[t].call == Pushing(r, rec)
    requires RP.Inv(g, s.producers[r].ring) && s.producers[r].ring.prod.PWriting? && s.producers[r].ring.prod.done == 0
    ensures var ring := RP.After(g, s.producers[r].ring, RP.Repeated(RP.CopyWordIn, g.words) + [RP.Publish]);
            After(g, s, Pushes(t, RP.Repeated(RP.CopyWordIn, g.words)) + [Push(t, RP.Publish)]) ==
            SetCall(WithRing(s, r, ring), t, Idle)
  {
    hide RP.Inv; hide RP.Apply; hide RP.Shape; hide Apply; hide After; hide RP.After;
    var copies := RP.Repeated<Word>(RP.CopyWordIn, g.words);
    CopiesIn(g, s, t, r, g.words);
    AfterBoth(g, s, Pushes(t, copies), [Push(t, RP.Publish)]);
    var s1 := After(g, s, Pushes(t, copies));
    AfterOne(g, s1, Push(t, RP.Publish));
    RP.AfterBoth(g, s.producers[r].ring, copies, [RP.Publish]);
    RP.AfterOne(g, s1.producers[r].ring, RP.Publish);
    RP.PushFinishes(g, s.producers[r].ring);
    PublishIs(g, s1, t, r, rec);
    assert s1.producers[r := s1.producers[r].(ring := RP.Apply(g, s1.producers[r].ring, RP.Publish))]
        == s.producers[r := s.producers[r].(ring := RP.Apply(g, s1.producers[r].ring, RP.Publish))];
  }

  /** The steps of one whole call, when its push sees the current read index. */
  ghost function WholeCall(g: RP.Geometry, t: nat, payload: Record, rec: Record, view: nat, room: bool): seq<Step> {
    (Prologue(t, payload) + Checking(t, rec, view)) +
      if room then Pushes(t, RP.Repeated(RP.CopyWordIn, g.words)) + [Push(t, RP.Publish)] else [CountDrop(t)]
  }

  lemma KnownRing(g: RP.Geometry, s: State, t: nat)
    requires StructInv(g, s) && t < |s.threads| && s.threads[t].call.Idle? && s.threads[t].cached.Some?
    ensures Shape(g, s) && s.threads[t].cached.value < |s.producers|
    ensures RP.Inv(g, s.producers[s.threads[t].cached.value].ring)
    ensures s.producers[s.threads[t].cached.value].ring.prod.PIdle?
  {
    hide RP.Inv; hide RP.Shape;
    assert ThreadOk(g, s.producers, t, s.threads[t]);
    assert ProducerOk(s, s.threads[t].cached.value);
  }

  lemma StampedLength(payload: Record, ticket: nat)
    ensures |StampedWith(payload, ticket)| == |payload|
  {
  }

  lemma PrologueRuns(g: RP.Geometry, s: State, t: nat, payload: Record)
    requires Shape(g, s) && t < |s.threads| && |payload| == g.words
    requires s.threads[t].call.Idle? && s.threads[t].cached.Some?
    ensures After(g, s, Prologue(t, payload)) ==
            SetCall(s.(accepted := s.accepted + 1, quiet := false, nextTicket := s.nextTicket + 1),
                    t, Stamped(s.threads[t].cached.value, StampedWith(payload, s.nextTicket)))
  {
    hide RP.Shape; hide Apply; hide After; hide StampedWith; hide SetCall;
    AfterThree(g, s, Call(t, payload), UseCached(t), TakeTicket(t));
    PrologueIs(g, s, t, payload);
  }

  /** What the check leaves: nothing but an idle side on refusal, a push about to copy otherwise. */
  lemma CheckedRing(g: RP.Geometry, ring: RP.State<Word>, rec: Record)
    requires RP.Inv(g, ring) && ring.prod.PIdle? && |rec| == g.words
    ensures var checked := RP.After(g, ring, [RP.BeginPush(rec), RP.LoadRead(|ring.popped|), RP.CheckFull]);
            && RP.Inv(g, checked)
            && (checked.prod.PIdle? <==> |ring.Unread()| == g.Capacity())
            && (!checked.prod.PIdle? ==> checked.prod.PWriting? && checked.prod.done == 0 && checked.prod.rec == rec)
            && |ring.Unread()| <= g.Capacity()
            && checked.pushed == ring.pushed && checked.popped == ring.popped
  {
    hide RP.SlotInv; hide RP.ConsumerInv; hide RP.ProducerInv;
    var load: RP.Step<Word> := RP.LoadRead(|ring.popped|);
    RP.AfterThree(g, ring, RP.BeginPush(rec), load, RP.CheckFull);
    var r1 := RP.Apply(g, ring, RP.BeginPush(rec));
    RP.StepKeepsInv(g, ring, RP.BeginPush(rec));
    RP.StepKeepsInv(g, r1, load);
    RP.RefusedPushSawFullRing(g, r1, |ring.popped|);
    RP.StepKeepsInv(g, RP.Apply(g, r1, load), RP.CheckFull);
  }

  lemma DropIs(g: RP.Geometry, s: State, t: nat, r: nat)
    requires Shape(g, s) && t < |s.threads| && r < |s.producers| && s.threads[t].call == Refused(r)
    ensures Apply(g, s, CountDrop(t)) ==
            SetCall(s, t, Idle).(producers := s.producers[r := s.producers[r].(dropped := s.producers[r].dropped + 1)])
  {
    hide RP.Shape;
  }

  lemma BackToIdle(s: State, t: nat)
    requires t < |s.threads| && s.threads[t].call.Idle?
    ensures s.threads[t := s.threads[t].(call := Idle)] == s.threads
  {
  }

  /**
   From any reachable state, a call of a thread that knows its ring goes through
   when it is let run: the record, with the next stamp in it, is offered to the
   thread's ring as to a bounded queue, and exactly a refusal counts a drop.
   */
  lemma CallGoesThrough(g: RP.Geometry, s: State, t: nat, payload: Record)
    requires StructInv(g, s) && t < |s.threads| && |payload| == g.words
    requires s.threads[t].call.Idle? && s.threads[t].cached.Some?
    ensures var r := s.threads[t].cached.value;
            && r < |s.producers|
            && var p, rec := s.producers[r], StampedWith(payload, s.nextTicket);
               var (queue, room) := BoundedFifo.Push(p.ring.Unread(), g.Capacity(), rec);
               var e := After(g, s, WholeCall(g, t, payload, rec, |p.ring.popped|, room));
               && |e.producers| == |s.producers| && e.producers[r].ring.Unread() == queue
               && e.producers[r].ring.pushed == (if room then p.ring.pushed + [rec] else p.ring.pushed)
               && e.producers[r].dropped == p.dropped + (if room then 0 else 1)
               && (forall q :: 0 <= q < |s.producers| && q != r ==> e.producers[q] == s.producers[q])
               && e.threads == s.threads
               && e.accepted == s.accepted + 1 && e.nextTicket == s.nextTicket + 1
               && e.log == s.log && e.written == s.written && e.mutex == s.mutex && e.sink == s.sink
  {
    hide RP.Inv; hide RP.Apply; hide RP.Shape; hide Apply; hide StampedWith; hide After; hide RP.After; hide Prologue;
    hide Checking; hide StructInv; hide Shape;
    KnownRing(g, s, t);
    var r := s.threads[t].cached.value;
    var p, rec := s.producers[r], StampedWith(payload, s.nextTicket);
    var room := BoundedFifo.Push(p.ring.Unread(), g.Capacity(), rec).1;
    StampedLength(payload, s.nextTicket);
    PrologueRuns(g, s, t, payload);
    var s3 := After(g, s, Prologue(t, payload));
    CheckingRuns(g, s3, t, r, rec);
    RP.PushRuns(g, p.ring, rec);
    CheckedRing(g, p.ring, rec);
    var s4 := After(g, s3, Checking(t, rec, |p.ring.popped|));
    AfterBoth(g, s, Prologue(t, payload), Checking(t, rec, |p.ring.popped|));
    if room {
      PushEnds(g, s4, t, r, rec);
      AfterBoth(g, s, Prologue(t, payload) + Checking(t, rec, |p.ring.popped|),
                Pushes(t, RP.Repeated(RP.CopyWordIn, g.words)) + [Push(t, RP.Publish)]);
    } else {
      AfterBoth(g, s, Prologue(t, payload) + Checking(t, rec, |p.ring.popped|), [CountDrop(t)]);
      AfterOne(g, s4, CountDrop(t));
      DropIs(g, s4, t, r);
    }
    BackToIdle(s, t);
  }

  // A drain.

  lemma {:induction false} CopiesOut(g: RP.Geometry, s: State, n: nat)
    requires Shape(g, s) && s.mutex.Draining? && s.mutex.at < |s.producers| && |s.log| == s.written
    ensures After(g, s, Pops(RP.Repeated(RP.CopyWordOut, n))) ==
            WithRing(s, s.mutex.at, RP.After(g, s.producers[s.mutex.at].ring, RP.Repeated(RP.CopyWordOut, n)))
    decreases n
  {
    hide RP.Apply; hide RP.Shape;
    var r := s.mutex.at;
    var steps := RP.Repeated<Word>(RP.CopyWordOut, n);
    if n == 0 {
      assert s.producers[r := s.producers[r]] == s.producers;
    } else {
      var s1 := Apply(g, s, Pop(RP.CopyWordOut));
      assert s1 == WithRing(s, r, RP.Apply(g, s.producers[r].ring, RP.CopyWordOut));
      assert steps[1..] == RP.Repeated(RP.CopyWordOut, n - 1);
      assert Pops(steps)[1..] == Pops(steps[1..]);
      CopiesOut(g, s1, n - 1);
    }
  }

  ghost function Looking(view: nat): seq<Step> {
    Pops([RP.BeginPop, RP.LoadWrite(view), RP.CheckEmpty])
  }

  lemma LoadSees(g: RP.Geometry, ring: RP.State<Word>, view: nat)
    requires RP.Shape(g, ring) && ring.cons.CIdle? && ring.consView <= view <= |ring.pushed|
    ensures RP.Apply(g, RP.Apply(g, ring, RP.BeginPop), RP.LoadWrite(view)).cons.CSeen?
  {
  }

  lemma LookingIs(g: RP.Geometry, s: State, view: nat)
    requires Shape(g, s) && s.mutex.Draining? && s.mutex.at < |s.producers| && |s.log| == s.written
    requires RP.Inv(g, s.producers[s.mutex.at].ring) && s.producers[s.mutex.at].ring.cons.CIdle?
    requires s.producers[s.mutex.at].ring.consView <= view <= |s.producers[s.mutex.at].ring.pushed|
    ensures var ring := RP.Apply(g,
        RP.Apply(g, RP.Apply(g, s.producers[s.mutex.at].ring, RP.BeginPop), RP.LoadWrite(view)),
                                 RP.CheckEmpty);
            Apply(g, Apply(g, Apply(g, s, Pop(RP.BeginPop)), Pop(RP.LoadWrite(view))), Pop(RP.CheckEmpty)) ==
            WithRing(s, s.mutex.at, ring).(mutex := if ring.cons.CIdle? then Draining(s.mutex.who, s.mutex.at + 1)
                else s.mutex)
  {
    hide RP.Inv; hide RP.Apply; hide RP.Shape;
    var at := s.mutex.at;
    LoadSees(g, s.producers[at].ring, view);
    var s1 := Apply(g, s, Pop(RP.BeginPop));
    var s2 := Apply(g, s1, Pop(RP.LoadWrite(view)));
    var s3 := Apply(g, s2, Pop(RP.CheckEmpty));
    assert s3.producers == s.producers[at := s3.producers[at]];
  }

  lemma ViewBehind(g: RP.Geometry, ring: RP.State<Word>)
    requires RP.Inv(g, ring)
    ensures ring.consView <= |ring.pushed|
  {
  }

  lemma SeenRing(g: RP.Geometry, ring: RP.State<Word>)
    requires RP.Inv(g, ring) && ring.cons.CIdle?
    ensures var load: RP.Step<Word> := RP.LoadWrite(|ring.pushed|);
            var seen := RP.Apply(g, RP.Apply(g, RP.Apply(g, ring, RP.BeginPop), load), RP.CheckEmpty);
            && RP.Inv(g, seen) && seen.popped == ring.popped && seen.pushed == ring.pushed
            && (ring.Unread() != [] ==> seen.cons.CCopying? && seen.cons.out == [])
            && (ring.Unread() == [] ==> seen.cons.CIdle?)
  {
    hide RP.SlotInv; hide RP.ConsumerInv; hide RP.ProducerInv;
    var load: RP.Step<Word> := RP.LoadWrite(|ring.pushed|);
    var r1 := RP.Apply(g, ring, RP.BeginPop);
    RP.StepKeepsInv(g, ring, RP.BeginPop);
    RP.StepKeepsInv(g, r1, load);
    RP.EmptyPopSawEmptyRing(g, r1, |ring.pushed|);
    RP.StepKeepsInv(g, RP.Apply(g, r1, load), RP.CheckEmpty);
  }

  lemma LookingRuns(g: RP.Geometry, s: State)
    requires Shape(g, s) && s.mutex.Draining? && s.mutex.at < |s.producers| && |s.log| == s.written
    requires RP.Inv(g, s.producers[s.mutex.at].ring) && s.producers[s.mutex.at].ring.cons.CIdle?
    ensures var ring := s.producers[s.mutex.at].ring;
            var seen := RP.After(g, ring, [RP.BeginPop, RP.LoadWrite(|ring.pushed|), RP.CheckEmpty]);
            && RP.Inv(g, seen)
            && After(g, s, Looking(|ring.pushed|)) ==
                 WithRing(s, s.mutex.at, seen).(mutex :=
                   if ring.Unread() == [] then Draining(s.mutex.who, s.mutex.at + 1) else s.mutex)
            && seen.popped == ring.popped && seen.pushed == ring.pushed
            && (ring.Unread() != [] ==> seen.cons.CCopying? && seen.cons.out == [])
            && (ring.Unread() == [] ==> seen.cons.CIdle?)
  {
    hide RP.Apply; hide RP.Shape; hide Apply; hide After; hide RP.After; hide RP.Inv; hide WithRing;
    var ring := s.producers[s.mutex.at].ring;
    var load: RP.Step<Word> := RP.LoadWrite(|ring.pushed|);
    RP.AfterThree(g, ring, RP.BeginPop, load, RP.CheckEmpty);
    assert Pops([RP.BeginPop, load, RP.CheckEmpty]) == [Pop(RP.BeginPop), Pop(load), Pop(RP.CheckEmpty)];
    AfterThree(g, s, Pop(RP.BeginPop), Pop(load), Pop(RP.CheckEmpty));
    ViewBehind(g, ring);
    LookingIs(g, s, |ring.pushed|);
    SeenRing(g, ring);
  }

  lemma ReleaseIs(g: RP.Geometry, s: State)
    requires Shape(g, s) && s.mutex.Draining? && s.mutex.at < |s.producers| && |s.log| == s.written
    requires var cons := s.producers[s.mutex.at].ring.cons; cons.CCopying? && |cons.out| == g.words
    ensures var at := s.mutex.at;
            var p := s.producers[at];
            Apply(g, Apply(g, s, Pop(RP.Release)), WriteRecord) ==
            WithRing(s, at, RP.Apply(g, p.ring, RP.Release))
              .(log := s.log + [Entry(at, |p.ring.popped|, p.ring.cons.out)], written := s.written + 1)
  {
    hide RP.Inv; hide RP.Apply; hide RP.Shape;
  }

  lemma DrainedRing(g: RP.Geometry, s: State)
    requires StructInv(g, s)
    ensures Shape(g, s) && forall r :: 0 <= r < |s.producers| ==> RP.Inv(g, s.producers[r].ring)
  {
  }

  lemma PoppedOldest(g: RP.Geometry, ring: RP.State<Word>)
    requires RP.Inv(g, ring) && ring.cons.CCopying? && |ring.cons.out| == g.words
    ensures ring.Unread() != [] && ring.cons.out == ring.Unread()[0]
    ensures RP.Apply(g, ring, RP.Release).popped == ring.popped + [ring.Unread()[0]]
    ensures RP.Apply(g, ring, RP.Release).pushed == ring.pushed
  {
    hide RP.SlotInv; hide RP.ProducerInv;
    RP.ReleaseIsPop(g, ring);
  }

  /** The rest of a pop that found a record, and the writing of it. */
  lemma PopEnds(g: RP.Geometry, s: State)
    requires Shape(g, s) && s.mutex.Draining? && s.mutex.at < |s.producers| && |s.log| == s.written
    requires var ring := s.producers[s.mutex.at].ring; RP.Inv(g, ring) && ring.cons.CCopying? && ring.cons.out == []
    ensures var at := s.mutex.at;
            var ring := s.producers[at].ring;
            var e := After(g, s, Pops(RP.Repeated(RP.CopyWordOut, g.words)) + [Pop(RP.Release), WriteRecord]);
            && ring.Unread() != []
            && |e.producers| == |s.producers| && e.threads == s.threads && e.sink == s.sink && e.mutex == s.mutex
            && e.producers[at].ring.popped == ring.popped + [ring.Unread()[0]]
            && e.producers[at].ring.pushed == ring.pushed
            && e.written == s.written + 1
            && e.log == s.log + [Entry(at, |ring.popped|, ring.Unread()[0])]
  {
    hide RP.Apply; hide RP.Shape; hide Apply; hide After; hide RP.After; hide RP.Inv;
    var at := s.mutex.at;
    var ring := s.producers[at].ring;
    var copies := RP.Repeated<Word>(RP.CopyWordOut, g.words);
    CopiesOut(g, s, g.words);
    RP.CopiesOut(g, ring, g.words);
    var s1 := After(g, s, Pops(copies));
    AfterBoth(g, s, Pops(copies), [Pop(RP.Release), WriteRecord]);
    assert [Pop(RP.Release), WriteRecord] == [Pop(RP.Release)] + [WriteRecord];
    AfterBoth(g, s1, [Pop(RP.Release)], [WriteRecord]);
    AfterOne(g, s1, Pop(RP.Release));
    AfterOne(g, Apply(g, s1, Pop(RP.Release)), WriteRecord);
    ReleaseIs(g, s1);
    PoppedOldest(g, s1.producers[at].ring);
    RP.SameUnread(ring, s1.producers[at].ring);
  }

  /**
   From any reachable state in which a drain stands at a ring: with a record
   waiting, the steps of one pop write out the oldest one; with none, they pass on
   to the next ring.
   */
  lemma DrainGoesOn(g: RP.Geometry, s: State)
    requires StructInv(g, s) && s.mutex.Draining? && s.mutex.at < |s.producers| && |s.log| == s.written
    requires s.producers[s.mutex.at].ring.cons.CIdle?
    ensures var at := s.mutex.at;
            var ring := s.producers[at].ring;
            var copies := Pops(RP.Repeated(RP.CopyWordOut, g.words));
            var e := After(g, s, if ring.Unread() == [] then Looking(|ring.pushed|)
                                 else Looking(|ring.pushed|) + (copies + [Pop(RP.Release), WriteRecord]));
            && |e.producers| == |s.producers| && e.threads == s.threads && e.sink == s.sink
            && e.producers[at].ring.popped == ring.popped + BoundedFifo.Pop(ring.Unread()).1
            && e.producers[at].ring.pushed == ring.pushed
            && (if ring.Unread() == [] then e.mutex == Draining(s.mutex.who, at + 1) && e.log == s.log
                && e.written == s.written
                else e.mutex == s.mutex && e.written == s.written + 1
                     && e.log == s.log + [Entry(at, |ring.popped|, ring.Unread()[0])])
  {
    hide RP.Apply; hide RP.Shape; hide Apply; hide After; hide RP.After; hide RP.Inv; hide Looking; hide StructInv;
    hide Shape;
    DrainedRing(g, s);
    LookingRuns(g, s);
    var at := s.mutex.at;
    var ring := s.producers[at].ring;
    if ring.Unread() != [] {
      var s1 := After(g, s, Looking(|ring.pushed|));
      var copies := Pops(RP.Repeated(RP.CopyWordOut, g.words));
      AfterBoth(g, s, Looking(|ring.pushed|), copies + [Pop(RP.Release), WriteRecord]);
      PopEnds(g, s1);
    }
  }

  // The sink thread.

  /** From not started to draining for the last time, when the stop comes at once. */
  lemma SinkReachesLastDrain(g: RP.Geometry, s: State)
    requires Shape(g, s) && s.sink.Off? && s.mutex.Free?
    ensures var s1 := Apply(g, s, Start);
            var s2 := Apply(g, s1, RequestStop(true));
            var s3 := Apply(g, s2, SinkFinish);
            var s4 := Apply(g, s3, BeginDrain(SinkThread));
            && s1.sink.Top? && !s1.stopRequested
            && s2.stopRequested && (s2.quiet <==> AllIdle(s.threads))
            && s3.sink.FinalDrain? && s4.mutex == Draining(SinkThread, 0) && |s4.producers| == |s.producers|
  {
    hide RP.Shape; hide Synced;
  }

  /** From the end of the last drain to the last report. */
  lemma SinkReports(g: RP.Geometry, s: State)
    requires Shape(g, s) && s.sink.FinalDrain? && s.mutex == Draining(SinkThread, |s.producers|) && |s.log| == s.written
    ensures var s1 := Apply(g, s, EndDrain);
            var s2 := Apply(g, s1, BeginReport);
            s1.mutex.Free? && s1.sink.FinalReport? && s2.mutex == Reporting(0, 0) && s2.sink.FinalReport?
  {
    hide RP.Shape;
  }

  /** From the last drop counter read to the join: one comparison, and a line exactly for an increase. */
  lemma SinkEnds(g: RP.Geometry, s: State)
    requires Shape(g, s) && s.sink.FinalReport? && s.mutex.Reporting? && s.mutex.at == |s.producers|
    ensures var s1 := Apply(g, s, EndReport);
            var s2 := Apply(g, s1, PrintReport);
            var total := s.mutex.sum;
            && s1.mutex.Free? && s2.sink.Done? && s2.reported == total
            && s2.printed == (if total == s.reported then s.printed else s.printed + [total - s.reported])
            && Apply(g, s2, Join).sink.Off?
  {
    hide RP.Shape;
  }

  /** A reading of a drop counter may be as fresh as it gets. */
  lemma ReadingGoesOn(g: RP.Geometry, s: State)
    requires Shape(g, s) && s.mutex.Reporting? && s.mutex.at < |s.producers|
    requires s.seenDrops[s.mutex.at] <= s.producers[s.mutex.at].dropped
    ensures var v := s.producers[s.mutex.at].dropped;
            Apply(g, s, ReadDrops(v)).mutex == Reporting(s.mutex.at + 1, s.mutex.sum + v)
  {
    hide RP.Shape;
  }

  /** A turn of the loop begins with a drain of every ring. */
  lemma SinkGoesRound(g: RP.Geometry, s: State)
    requires Shape(g, s) && s.sink.Top? && s.mutex.Free?
    ensures var s1 := Apply(g, Apply(g, s, SinkGoOn), BeginDrain(SinkThread));
            s1.mutex == Draining(SinkThread, 0) && s1.producers == s.producers && s1.sink.LoopDrain?
  {
    hide RP.Shape;
  }

  /** And ends, between reports, back at the top. */
  lemma SinkComesRound(g: RP.Geometry, s: State)
    requires Shape(g, s) && s.sink.LoopDrain? && s.mutex == Draining(SinkThread, |s.producers|) && |s.log| == s.written
    ensures Apply(g, Apply(g, s, EndDrain), SinkSkipReport) == s.(sink := Top, mutex := Free)
  {
    hide RP.Shape;
  }

  /** A thread with no ring here registers one, empty, as its own. */
  lemma RegisterGoesThrough(g: RP.Geometry, s: State, t: nat)
    requires Shape(g, s) && t < |s.threads| && s.mutex.Free?
    requires s.threads[t].call.Called? && s.threads[t].cached.None?
    ensures var e := Apply(g, s, Register(t));
            && |e.producers| == |s.producers| + 1 && e.threads[t].cached == Some(|s.producers|)
            && e.threads[t].call == Ready(|s.producers|, s.threads[t].call.payload)
            && e.producers[|s.producers|].owner == t && e.producers[|s.producers|].ring.pushed == []
            && e.producers[|s.producers|].dropped == 0
  {
    hide RP.Shape; hide Synced;
  }
}
