/**
 The single-producer single-consumer ring as a protocol between two threads.

 Every access to shared memory is a step of its own: the relaxed load of one's
 own index, the acquire load of the other side's index, the check, each word of
 the record copy, and the release store that publishes. Steps of the two sides
 interleave arbitrarily. An acquire load may return any value the other side's
 index has had since the last value this side saw, so either side may act on a
 stale view. `pushed` and `popped` record the history of published records and
 of completed pops; the machine indices are those counts modulo 2^64.
 */
module RingProtocol {
  import opened Words
  import BoundedFifo

  /** `Capacity` is 2^k slots; a record is `words` machine words. */
  datatype Geometry = Geometry(k: nat, words: nat) {
    function Capacity(): (c: nat)
      ensures c >= 1
    {
      Pow2(k)
    }

    /** What the two static assertions on the template parameter demand. */
    predicate Ok() {
      1 <= k <= 63
    }

    function Slot(index: u64): (i: nat)
      ensures i < Capacity()
    {
      BitAnd(index, Capacity() - 1)
    }
  }

  datatype Producer<W> =
    | PIdle
    | POwn(rec: seq<W>, w: u64)
    | PSeen(rec: seq<W>, w: u64, seen: u64)
    | PWriting(rec: seq<W>, w: u64, done: nat)

  datatype Consumer<W> =
    | CIdle
    | COwn(rd: u64)
    | CSeen(rd: u64, seen: u64)
    | CCopying(rd: u64, out: seq<W>)

  datatype State<W> = State(
    write: u64, read: u64, slots: seq<seq<W>>,
    prod: Producer<W>, cons: Consumer<W>,
    pushed: seq<seq<W>>, popped: seq<seq<W>>,
    prodView: nat, consView: nat)
  {
    /** The records published and not yet popped. */
    function Unread(): (q: seq<seq<W>>) {
      if |popped| <= |pushed| then pushed[|popped|..] else []
    }
  }

  /**
   One step of either side. `SyncConsumer` is not an access to the ring: it is
   the effect of a lock or join elsewhere that makes earlier publishes visible
   to the next consumer.
   */
  datatype Step<W> =
    | BeginPush(rec: seq<W>) | LoadRead(view: nat) | CheckFull | CopyWordIn | Publish
    | BeginPop | LoadWrite(view: nat) | CheckEmpty | CopyWordOut | Release
    | SyncConsumer(view: nat)

  ghost predicate Shape<W>(g: Geometry, s: State<W>) {
    && g.Ok()
    && |s.slots| == g.Capacity()
    && (forall i :: 0 <= i < |s.slots| ==> |s.slots[i]| == g.words)
    && (!s.prod.PIdle? ==> |s.prod.rec| == g.words)
    && (s.prod.PWriting? ==> s.prod.done <= g.words)
    && (s.cons.CCopying? ==> |s.cons.out| <= g.words)
  }

  /** The refusal test of `try_push`, in wrapped arithmetic. */
  predicate Refuses(g: Geometry, w: u64, seen: u64) {
    Sub64(Add64(w, 1), seen) > g.Capacity()
  }

  /** The effect of one step; a step that is not enabled leaves the state alone. */
  ghost function Apply<W>(g: Geometry, s: State<W>, step: Step<W>): (t: State<W>)
    requires Shape(g, s)
    ensures Shape(g, t)
  {
    match step
    case BeginPush(rec) =>
      if s.prod.PIdle? && |rec| == g.words then s.(prod := POwn(rec, s.write)) else s
    case LoadRead(view) =>
      if s.prod.POwn? && s.prodView <= view <= |s.popped| then
        s.(prod := PSeen(s.prod.rec, s.prod.w, view % TWO64), prodView := view)
      else s
    case CheckFull =>
      if !s.prod.PSeen? then s
      else if Refuses(g, s.prod.w, s.prod.seen) then s.(prod := PIdle)
      else s.(prod := PWriting(s.prod.rec, s.prod.w, 0))
    case CopyWordIn =>
      if s.prod.PWriting? && s.prod.done < g.words then
        var i, d := g.Slot(s.prod.w), s.prod.done;
        s.(slots := s.slots[i := s.slots[i][d := s.prod.rec[d]]],
           prod := PWriting(s.prod.rec, s.prod.w, d + 1))
      else s
    case Publish =>
      if s.prod.PWriting? && s.prod.done == g.words then
        s.(write := Add64(s.prod.w, 1), pushed := s.pushed + [s.prod.rec], prod := PIdle)
      else s
    case BeginPop =>
      if s.cons.CIdle? then s.(cons := COwn(s.read)) else s
    case LoadWrite(view) =>
      if s.cons.COwn? && s.consView <= view <= |s.pushed| then
        s.(cons := CSeen(s.cons.rd, view % TWO64), consView := view)
      else s
    case CheckEmpty =>
      if !s.cons.CSeen? then s
      else if s.cons.rd == s.cons.seen then s.(cons := CIdle)
      else s.(cons := CCopying(s.cons.rd, []))
    case CopyWordOut =>
      if s.cons.CCopying? && |s.cons.out| < g.words then
        s.(cons := CCopying(s.cons.rd, s.cons.out + [s.slots[g.Slot(s.cons.rd)][|s.cons.out|]]))
      else s
    case Release =>
      if s.cons.CCopying? && |s.cons.out| == g.words then
        s.(read := Add64(s.cons.rd, 1), popped := s.popped + [s.cons.out], cons := CIdle)
      else s
    case SyncConsumer(view) =>
      if s.cons.CIdle? && s.consView <= view <= |s.pushed| then s.(consView := view) else s
  }

  ghost function After<W>(g: Geometry, s: State<W>, steps: seq<Step<W>>): (t: State<W>)
    requires Shape(g, s)
    ensures Shape(g, t)
    decreases |steps|
  {
    if steps == [] then s else After(g, Apply(g, s, steps[0]), steps[1..])
  }

  ghost predicate Initial<W>(g: Geometry, s: State<W>) {
    && Shape(g, s)
    && s.write == 0 && s.read == 0 && s.prod == PIdle && s.cons == CIdle
    && s.pushed == [] && s.popped == [] && s.prodView == 0 && s.consView == 0
  }

  // The invariant, in four parts.

  /** Indices are the history counts, and each side's view lags behind them by at most the capacity. */
  ghost predicate IndexInv<W>(g: Geometry, s: State<W>) {
    && s.write == |s.pushed| % TWO64 && s.read == |s.popped| % TWO64
    && s.prodView <= |s.popped| <= s.consView <= |s.pushed| <= s.prodView + g.Capacity()
    && (forall j :: 0 <= j < |s.pushed| ==> |s.pushed[j]| == g.words)
  }

  /** Every slot that still holds an unread record holds all of it. */
  ghost predicate SlotInv<W>(g: Geometry, s: State<W>)
    requires Shape(g, s)
  {
    forall j :: |s.popped| <= j < |s.pushed| ==> s.slots[j % g.Capacity()] == s.pushed[j]
  }

  ghost predicate ProducerInv<W>(g: Geometry, s: State<W>)
    requires Shape(g, s)
  {
    && (!s.prod.PIdle? ==> s.prod.w == s.write)
    && (s.prod.PSeen? ==> s.prod.seen == s.prodView % TWO64)
    && (s.prod.PWriting? ==>
          && |s.pushed| < s.prodView + g.Capacity()
          && s.slots[|s.pushed| % g.Capacity()][..s.prod.done] == s.prod.rec[..s.prod.done])
  }

  ghost predicate ConsumerInv<W>(g: Geometry, s: State<W>) {
    && (!s.cons.CIdle? ==> s.cons.rd == s.read)
    && (s.cons.CSeen? ==> s.cons.seen == s.consView % TWO64)
    && (s.cons.CCopying? ==>
          && |s.popped| < s.consView <= |s.pushed|
          && |s.cons.out| <= |s.pushed[|s.popped|]|
          && s.cons.out == s.pushed[|s.popped|][..|s.cons.out|])
  }

  /** Completed pops are exactly the oldest pushes, in order. */
  ghost predicate HistoryInv<W>(s: State<W>) {
    |s.popped| <= |s.pushed| && s.popped == s.pushed[..|s.popped|]
  }

  ghost predicate Inv<W>(g: Geometry, s: State<W>) {
    Shape(g, s) && IndexInv(g, s) && HistoryInv(s) && SlotInv(g, s) && ProducerInv(g, s) && ConsumerInv(g, s)
  }

  /** A masked machine index is the position's slot. */
  lemma SlotOfPosition(g: Geometry, n: nat)
    requires g.Ok()
    ensures g.Slot(n % TWO64) == n % g.Capacity()
  {
    MaskIsModulo(n % TWO64, g.k);
    WrapKeepsSlot(n, g.k);
  }

  /** The wrapped test refuses exactly when the ring was full at the index value that was loaded. */
  lemma RefusalIsFull<W>(g: Geometry, s: State<W>)
    requires Inv(g, s) && s.prod.PSeen?
    ensures Sub64(Add64(s.prod.w, 1), s.prod.seen) == |s.pushed| - s.prodView + 1
    ensures Refuses(g, s.prod.w, s.prod.seen) <==> |s.pushed| - s.prodView == g.Capacity()
  {
    CapacityBound(g.k);
    WrapAdd(|s.pushed|, 1);
    WrapDifference(|s.pushed| + 1, s.prodView);
  }

  /** The equality test reports empty exactly when nothing newer had been seen. */
  lemma EmptyIsEmpty<W>(g: Geometry, s: State<W>)
    requires Inv(g, s) && s.cons.CSeen?
    ensures s.cons.rd == s.cons.seen <==> |s.popped| == s.consView
  {
    CapacityBound(g.k);
    WrapDifference(s.consView, |s.popped|);
  }

  /** The slot a push writes into is none of the slots that hold unread records. */
  lemma WritingSlotIsFree<W>(g: Geometry, s: State<W>)
    requires Inv(g, s) && s.prod.PWriting?
    ensures g.Slot(s.prod.w) == |s.pushed| % g.Capacity()
    ensures forall j :: |s.popped| <= j < |s.pushed| ==> j % g.Capacity() != g.Slot(s.prod.w)
  {
    SlotOfPosition(g, |s.pushed|);
    forall j | |s.popped| <= j < |s.pushed| ensures j % g.Capacity() != |s.pushed| % g.Capacity() {
      DistinctSlots(j, |s.pushed|, g.Capacity());
    }
  }

  lemma CopyInKeepsInv<W>(g: Geometry, s: State<W>)
    requires Inv(g, s)
    ensures Inv(g, Apply(g, s, CopyWordIn))
  {
    var t := Apply(g, s, CopyWordIn);
    if s.prod.PWriting? && s.prod.done < g.words {
      WritingSlotIsFree(g, s);
      var i, d := g.Slot(s.prod.w), s.prod.done;
      assert t.slots[i][..d + 1] == s.slots[i][..d] + [s.prod.rec[d]];
      assert s.prod.rec[..d + 1] == s.prod.rec[..d] + [s.prod.rec[d]];
    }
  }

  lemma PublishKeepsInv<W>(g: Geometry, s: State<W>)
    requires Inv(g, s)
    ensures Inv(g, Apply(g, s, Publish))
  {
    if s.prod.PWriting? && s.prod.done == g.words {
      var i := |s.pushed| % g.Capacity();
      assert s.slots[i] == s.slots[i][..g.words] && s.prod.rec == s.prod.rec[..g.words];
      WrapAdd(|s.pushed|, 1);
    }
  }

  lemma CopyOutKeepsInv<W>(g: Geometry, s: State<W>)
    requires Inv(g, s)
    ensures Inv(g, Apply(g, s, CopyWordOut))
  {
    if s.cons.CCopying? && |s.cons.out| < g.words {
      SlotOfPosition(g, |s.popped|);
      var rec := s.pushed[|s.popped|];
      assert rec[..|s.cons.out| + 1] == rec[..|s.cons.out|] + [rec[|s.cons.out|]];
    }
  }

  lemma ReleaseKeepsInv<W>(g: Geometry, s: State<W>)
    requires Inv(g, s)
    ensures Inv(g, Apply(g, s, Release))
  {
    if s.cons.CCopying? && |s.cons.out| == g.words {
      var rec := s.pushed[|s.popped|];
      assert rec[..g.words] == rec;
      WrapAdd(|s.popped|, 1);
    }
  }

  lemma CheckFullKeepsInv<W>(g: Geometry, s: State<W>)
    requires Inv(g, s)
    ensures Inv(g, Apply(g, s, CheckFull))
  {
    if s.prod.PSeen? {
      RefusalIsFull(g, s);
    }
  }

  lemma CheckEmptyKeepsInv<W>(g: Geometry, s: State<W>)
    requires Inv(g, s)
    ensures Inv(g, Apply(g, s, CheckEmpty))
  {
    if s.cons.CSeen? {
      EmptyIsEmpty(g, s);
    }
  }

  /** Every step of either side keeps the invariant, whatever view it acts on. */
  lemma StepKeepsInv<W>(g: Geometry, s: State<W>, step: Step<W>)
    requires Inv(g, s)
    ensures Inv(g, Apply(g, s, step))
  {
    match step
    case CheckFull => CheckFullKeepsInv(g, s);
    case CheckEmpty => CheckEmptyKeepsInv(g, s);
    case CopyWordIn => CopyInKeepsInv(g, s);
    case Publish => PublishKeepsInv(g, s);
    case CopyWordOut => CopyOutKeepsInv(g, s);
    case Release => ReleaseKeepsInv(g, s);
    case _ =>
  }

  lemma {:induction false} RunKeepsInv<W>(g: Geometry, s: State<W>, steps: seq<Step<W>>)
    requires Inv(g, s)
    ensures Inv(g, After(g, s, steps))
    decreases |steps|
  {
    if steps == [] {
    } else {
      StepKeepsInv(g, s, steps[0]);
      RunKeepsInv(g, Apply(g, s, steps[0]), steps[1..]);
    }
  }

  lemma InitialInv<W>(g: Geometry, s: State<W>)
    requires Initial(g, s)
    ensures Inv(g, s)
  {
  }

  /**
   Every run from the empty ring: pops are a prefix of pushes in order, so no
   record is lost, duplicated, reordered or torn, and at most a capacity of them
   is unread.
   */
  lemma RunIsFifo<W>(g: Geometry, s: State<W>, steps: seq<Step<W>>)
    requires Initial(g, s)
    ensures var t := After(g, s, steps);
            && t.pushed == t.popped + t.Unread()
            && |t.Unread()| <= g.Capacity()
            && t.write == |t.pushed| % TWO64 && t.read == |t.popped| % TWO64
            && Sub64(t.write, t.read) == |t.Unread()|
  {
    InitialInv(g, s);
    RunKeepsInv(g, s, steps);
    CapacityBound(g.k);
    var t := After(g, s, steps);
    WrapDifference(|t.pushed|, |t.popped|);
  }

  lemma ReleaseIsPop<W>(g: Geometry, s: State<W>)
    requires Inv(g, s) && s.cons.CCopying? && |s.cons.out| == g.words
    ensures s.Unread() == [s.cons.out] + s.pushed[|s.popped| + 1..]
  {
    var rec := s.pushed[|s.popped|];
    assert rec[..g.words] == rec;
  }

  /**
   Refinement: publishing is the bounded queue's push of the whole record, the
   release store is its pop, and every other step is invisible.
   */
  lemma StepRefinesFifo<W>(g: Geometry, s: State<W>, step: Step<W>)
    requires Inv(g, s)
    ensures var t := Apply(g, s, step);
            if step.Publish? && s.prod.PWriting? && s.prod.done == g.words then
              && (t.Unread(), true) == BoundedFifo.Push(s.Unread(), g.Capacity(), s.prod.rec)
              && t.pushed == s.pushed + [s.prod.rec] && t.popped == s.popped
            else if step.Release? && s.cons.CCopying? && |s.cons.out| == g.words then
              && (t.Unread(), [s.cons.out]) == BoundedFifo.Pop(s.Unread())
              && t.pushed == s.pushed && t.popped == s.popped + [s.cons.out]
            else
              t.Unread() == s.Unread() && t.pushed == s.pushed && t.popped == s.popped
  {
    hide SlotInv; hide ConsumerInv;
    if step.Publish? && s.prod.PWriting? && s.prod.done == g.words {
      assert (s.pushed + [s.prod.rec])[|s.popped|..] == s.Unread() + [s.prod.rec];
    }
    if step.Release? && s.cons.CCopying? && |s.cons.out| == g.words {
      ReleaseIsPop(g, s);
    }
  }

  /**
   A refused push saw a full ring: if the index it loaded was the current one,
   no slot was free at that moment.
   */
  lemma RefusedPushSawFullRing<W>(g: Geometry, s: State<W>, view: nat)
    requires Inv(g, s) && s.prod.POwn? && s.prodView <= view <= |s.popped|
    ensures var t := Apply(g, Apply(g, s, LoadRead(view)), CheckFull);
            && (t.prod.PIdle? <==> |s.pushed| - view == g.Capacity())
            && (view == |s.popped| ==> (t.prod.PIdle? <==> !BoundedFifo.Push(s.Unread(), g.Capacity(), s.prod.rec).1))
  {
    StepKeepsInv(g, s, LoadRead(view));
    RefusalIsFull(g, Apply(g, s, LoadRead(view)));
  }

  /** A pop that reports empty had consumed everything it could see. */
  lemma EmptyPopSawEmptyRing<W>(g: Geometry, s: State<W>, view: nat)
    requires Inv(g, s) && s.cons.COwn? && s.consView <= view <= |s.pushed|
    ensures var t := Apply(g, Apply(g, s, LoadWrite(view)), CheckEmpty);
            && (t.cons.CIdle? <==> view == |s.popped|)
            && (view == |s.pushed| ==> (t.cons.CIdle? <==> BoundedFifo.Pop(s.Unread()).1 == []))
  {
    StepKeepsInv(g, s, LoadWrite(view));
    EmptyIsEmpty(g, Apply(g, s, LoadWrite(view)));
  }

  // What a push or a pop does when its own steps run to the end, wherever the other side stands.

  lemma {:induction false} AfterBoth<W>(g: Geometry, s: State<W>, first: seq<Step<W>>, second: seq<Step<W>>)
    requires Shape(g, s)
    ensures After(g, s, first + second) == After(g, After(g, s, first), second)
    decreases |first|
  {
    hide Apply;
    if first == [] {
      assert first + second == second;
    } else {
      assert (first + second)[1..] == first[1..] + second;
      AfterBoth(g, Apply(g, s, first[0]), first[1..], second);
    }
  }

  lemma AfterOne<W>(g: Geometry, s: State<W>, step: Step<W>)
    requires Shape(g, s)
    ensures After(g, s, [step]) == Apply(g, s, step)
  {
    hide Apply;
    assert [step][1..] == [];
    assert After(g, Apply(g, s, step), []) == Apply(g, s, step);
  }

  lemma AfterThree<W>(g: Geometry, s: State<W>, a: Step<W>, b: Step<W>, c: Step<W>)
    requires Shape(g, s)
    ensures After(g, s, [a, b, c]) == Apply(g, Apply(g, Apply(g, s, a), b), c)
  {
    hide Apply;
    assert [a, b, c] == [a] + ([b] + [c]);
    AfterBoth(g, s, [a], [b] + [c]);
    AfterOne(g, s, a);
    AfterBoth(g, Apply(g, s, a), [b], [c]);
    AfterOne(g, Apply(g, s, a), b);
    AfterOne(g, Apply(g, Apply(g, s, a), b), c);
  }

  function Repeated<W>(step: Step<W>, n: nat): (steps: seq<Step<W>>)
    ensures |steps| == n && forall i :: 0 <= i < n ==> steps[i] == step
  {
    seq(n, _ => step)
  }

  lemma {:induction false} CopiesIn<W>(g: Geometry, s: State<W>, n: nat)
    requires Inv(g, s) && s.prod.PWriting? && s.prod.done + n == g.words
    ensures var t := After(g, s, Repeated(CopyWordIn, n));
            Inv(g, t) && t == s.(slots := t.slots, prod := PWriting(s.prod.rec, s.prod.w, g.words))
    decreases n
  {
    hide SlotInv; hide IndexInv; hide ConsumerInv; hide HistoryInv; hide ProducerInv;
    if n == 0 {
    } else {
      CopyInKeepsInv(g, s);
      assert Repeated(CopyWordIn, n)[1..] == Repeated<W>(CopyWordIn, n - 1);
      CopiesIn(g, Apply(g, s, CopyWordIn), n - 1);
    }
  }

  lemma {:induction false} CopiesOut<W>(g: Geometry, s: State<W>, n: nat)
    requires Inv(g, s) && s.cons.CCopying? && |s.cons.out| + n == g.words
    ensures var t := After(g, s, Repeated(CopyWordOut, n));
            Inv(g, t) && t.cons.CCopying? && |t.cons.out| == g.words && t == s.(cons := CCopying(s.cons.rd, t.cons.out))
    decreases n
  {
    hide SlotInv; hide IndexInv; hide ConsumerInv; hide HistoryInv; hide ProducerInv;
    if n == 0 {
    } else {
      CopyOutKeepsInv(g, s);
      assert Repeated(CopyWordOut, n)[1..] == Repeated<W>(CopyWordOut, n - 1);
      CopiesOut(g, Apply(g, s, CopyWordOut), n - 1);
    }
  }

  lemma SameUnread<W>(s: State<W>, t: State<W>)
    requires t.pushed == s.pushed && t.popped == s.popped
    ensures t.Unread() == s.Unread()
  {
  }

  lemma PushFinishes<W>(g: Geometry, s: State<W>)
    requires Inv(g, s) && s.prod.PWriting? && s.prod.done == 0
    ensures var t := After(g, s, Repeated(CopyWordIn, g.words) + [Publish]);
            && Inv(g, t) && t.prod.PIdle? && t.cons == s.cons && t.popped == s.popped
            && t.pushed == s.pushed + [s.prod.rec]
            && (t.Unread(), true) == BoundedFifo.Push(s.Unread(), g.Capacity(), s.prod.rec)
  {
    hide SlotInv; hide ConsumerInv; hide ProducerInv; hide IndexInv; hide HistoryInv; hide State.Unread;
    CopiesIn(g, s, g.words);
    var t := After(g, s, Repeated(CopyWordIn, g.words));
    SameUnread(s, t);
    AfterBoth(g, s, Repeated(CopyWordIn, g.words), [Publish]);
    AfterOne(g, t, Publish);
    StepKeepsInv(g, t, Publish);
    StepRefinesFifo(g, t, Publish);
  }

  lemma PopFinishes<W>(g: Geometry, s: State<W>)
    requires Inv(g, s) && s.cons.CCopying? && s.cons.out == []
    ensures var t := After(g, s, Repeated(CopyWordOut, g.words) + [Release]);
            && Inv(g, t) && t.cons.CIdle? && t.prod == s.prod && t.pushed == s.pushed
            && t.popped == s.popped + BoundedFifo.Pop(s.Unread()).1
            && t.Unread() == BoundedFifo.Pop(s.Unread()).0
  {
    hide SlotInv; hide ConsumerInv; hide ProducerInv; hide IndexInv; hide HistoryInv; hide State.Unread;
    CopiesOut(g, s, g.words);
    var t := After(g, s, Repeated(CopyWordOut, g.words));
    SameUnread(s, t);
    AfterBoth(g, s, Repeated(CopyWordOut, g.words), [Release]);
    AfterOne(g, t, Release);
    StepKeepsInv(g, t, Release);
    StepRefinesFifo(g, t, Release);
  }

  /**
   A push that sees the current read index is the bounded queue's push: with room
   it publishes its whole record, without room it is over after the check.
   */
  lemma PushRuns<W>(g: Geometry, s: State<W>, rec: seq<W>)
    requires Inv(g, s) && s.prod.PIdle? && |rec| == g.words
    ensures var checked := After(g, s, [BeginPush(rec), LoadRead(|s.popped|), CheckFull]);
            var t := if |s.Unread()| == g.Capacity() then checked
                     else After(g, checked, Repeated(CopyWordIn, g.words) + [Publish]);
            && Inv(g, t) && t.prod.PIdle? && t.cons == s.cons && t.popped == s.popped
            && t.pushed == (if |s.Unread()| == g.Capacity() then s.pushed else s.pushed + [rec])
            && (t.Unread(), |s.Unread()| < g.Capacity()) == BoundedFifo.Push(s.Unread(), g.Capacity(), rec)
  {
    hide SlotInv; hide ConsumerInv; hide ProducerInv;
    var load := LoadRead(|s.popped|);
    AfterThree(g, s, BeginPush(rec), load, CheckFull);
    var s1 := Apply(g, s, BeginPush(rec));
    StepKeepsInv(g, s, BeginPush(rec));
    StepKeepsInv(g, s1, load);
    RefusedPushSawFullRing(g, s1, |s.popped|);
    var s2 := Apply(g, Apply(g, s1, load), CheckFull);
    StepKeepsInv(g, Apply(g, s1, load), CheckFull);
    if |s.Unread()| < g.Capacity() {
      PushFinishes(g, s2);
    }
  }

  /**
   A pop that sees the current write index is the bounded queue's pop: it takes
   the oldest unread record whole, or is over after the check when there is none.
   */
  lemma PopRuns<W>(g: Geometry, s: State<W>)
    requires Inv(g, s) && s.cons.CIdle?
    ensures var checked := After(g, s, [BeginPop, LoadWrite(|s.pushed|), CheckEmpty]);
            var t := if s.Unread() == [] then checked
                     else After(g, checked, Repeated(CopyWordOut, g.words) + [Release]);
            && Inv(g, t) && t.cons.CIdle? && t.prod == s.prod && t.pushed == s.pushed
            && t.popped == s.popped + BoundedFifo.Pop(s.Unread()).1
            && t.Unread() == BoundedFifo.Pop(s.Unread()).0
  {
    hide SlotInv; hide ConsumerInv; hide ProducerInv;
    var load := LoadWrite(|s.pushed|);
    AfterThree(g, s, BeginPop, load, CheckEmpty);
    var s1 := Apply(g, s, BeginPop);
    StepKeepsInv(g, s, BeginPop);
    StepKeepsInv(g, s1, load);
    EmptyPopSawEmptyRing(g, s1, |s.pushed|);
    var s2 := Apply(g, Apply(g, s1, load), CheckEmpty);
    StepKeepsInv(g, Apply(g, s1, load), CheckEmpty);
    if s.Unread() != [] {
      PopFinishes(g, s2);
    }
  }
}
