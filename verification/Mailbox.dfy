/**
 The one-slot mailbox between the streaming thread and the inference worker.

 Each critical section is split into the steps that matter: taking the lock,
 copying one row, publishing; waking, checking for a stop, taking the frame.
 `try_lock` may fail at any time and a timed wait may wake at any time.
 */
module Mailbox {
  import opened Words

  /** A frame as offered: luma rows of `w` bytes, `stride` apart; a stride of zero stands for the width. */
  datatype Frame = Frame(data: seq<byte>, w: nat, h: nat, stride: nat) {
    function Pitch(): nat {
      if stride != 0 then stride else w
    }

    /** Where byte `c` of row `row` is read. */
    function Offset(row: nat, c: nat): nat {
      row * Pitch() + c
    }

    /** The plane the frame describes lies inside its data. */
    ghost predicate Fits() {
      h == 0 || w == 0 || (h - 1) * Pitch() + w <= |data|
    }
  }

  /** A packed frame, as the worker sees it. */
  datatype Image = Image(pixels: seq<byte>, w: nat, h: nat)

  /** Every byte of a row lies inside the data, if the row has any. */
  lemma RowFits(f: Frame, row: nat)
    requires f.Fits() && row < f.h
    ensures f.w == 0 || row * f.Pitch() + f.w <= |f.data|
  {
    if f.w > 0 {
      MulMonotone(row, f.h - 1, f.Pitch());
    }
  }

  /** The copy loop reads no byte outside the data exactly for frames that fit. */
  lemma ReadsInsideIff(f: Frame)
    ensures (forall row: nat, c: nat :: row < f.h && c < f.w ==> f.Offset(row, c) < |f.data|) <==> f.Fits()
  {
    if f.Fits() {
      forall row: nat, c: nat | row < f.h && c < f.w ensures f.Offset(row, c) < |f.data| {
        RowFits(f, row);
      }
    } else {
      assert f.Offset(f.h - 1, f.w - 1) >= |f.data|;
    }
  }

  /** `n` bytes from `at`; of no bytes it does not matter where they would be. */
  function Bytes(s: seq<byte>, at: nat, n: nat): (b: seq<byte>)
    requires n == 0 || at + n <= |s|
    ensures |b| == n
  {
    if n == 0 then [] else s[at..at + n]
  }

  /** Where row `row` of `width` bytes ends in a packed buffer of `rows` rows. */
  lemma RowEnd(row: nat, rows: nat, width: nat)
    requires row < rows
    ensures (row + 1) * width == row * width + width <= rows * width
  {
    MulMonotone(row + 1, rows, width);
  }

  /** Luma row `row`, without the padding. */
  ghost function Line(f: Frame, row: nat): (line: seq<byte>)
    requires f.Fits() && row < f.h
    ensures |line| == f.w
  {
    RowFits(f, row);
    Bytes(f.data, row * f.Pitch(), f.w)
  }

  /** The first `rows` luma rows, end to end. */
  ghost function Packed(f: Frame, rows: nat): (p: seq<byte>)
    requires f.Fits() && rows <= f.h
    ensures |p| == rows * f.w
  {
    if rows == 0 then []
    else
      RowEnd(rows - 1, rows, f.w);
      Packed(f, rows - 1) + Line(f, rows - 1)
  }

  /** Each line of the frame is found whole in the packed buffer. */
  lemma {:induction false} PackedLine(f: Frame, rows: nat, r: nat, at: nat)
    requires f.Fits() && rows <= f.h && r < rows && at == r * f.w
    ensures at + f.w <= |Packed(f, rows)| && Packed(f, rows)[at..at + f.w] == Line(f, r)
  {
    hide Line;
    var p := Packed(f, rows - 1);
    assert Packed(f, rows) == p + Line(f, rows - 1);
    if r + 1 < rows {
      PackedLine(f, rows - 1, r, at);
      assert (p + Line(f, rows - 1))[at..at + f.w] == p[at..at + f.w];
    }
  }

  /** Pixel (r, c) of the packed frame is pixel (r, c) of the strided one. */
  lemma PackedAt(f: Frame, rows: nat, r: nat, c: nat)
    requires f.Fits() && rows <= f.h && r < rows && c < f.w
    ensures 0 <= r * f.w + c < |Packed(f, rows)|
    ensures f.Offset(r, c) < |f.data|
    ensures Packed(f, rows)[r * f.w + c] == f.data[f.Offset(r, c)]
  {
    hide Packed;
    var at := r * f.w;
    RowFits(f, r);
    PackedLine(f, rows, r, at);
    assert Packed(f, rows)[at + c] == Packed(f, rows)[at..at + f.w][c] == Line(f, r)[c];
  }

  /** Writing a line into a buffer after a prefix extends the prefix by that line. */
  lemma Splice(m: seq<byte>, at: nat, line: seq<byte>)
    requires at + |line| <= |m|
    ensures var n := m[..at] + line + m[at + |line|..];
            |n| == |m| && n[..at + |line|] == m[..at] + line
  {
  }

  ghost function ImageOf(f: Frame): Image
    requires f.Fits()
  {
    Image(Packed(f, f.h), f.w, f.h)
  }

  datatype Offer = OIdle | OCopying(frame: Frame, row: nat)

  datatype Worker = WTop | WWaiting | WHolding | WPassed | WDetecting(img: Image) | WClearing | WExited

  datatype Lock = Free | Streaming | Working

  datatype State = State(
    mailbox: seq<byte>, mailboxW: nat, mailboxH: nat, pending: bool,
    lock: Lock, offer: Offer, worker: Worker, stopRequested: bool,
    accepted: seq<Frame>, taken: nat, inferred: seq<Image>, cleared: nat)

  datatype Step =
    | TryOffer(frame: Frame)   // try_lock succeeded
    | MissOffer                // try_lock failed
    | CopyRow
    | PublishFrame
    | EnterLoop | LeaveLoop
    | Wake
    | CheckStop
    | TakeFrame
    | Detect
    | ClearPending
    | RequestStop

  /** `resize`: the common prefix stays, new bytes are zero. */
  function Resized(m: seq<byte>, n: nat): (r: seq<byte>)
    ensures |r| == n
  {
    if n <= |m| then m[..n] else m + seq(n - |m|, _ => 0)
  }

  ghost function Apply(s: State, step: Step): State {
    match step
    case TryOffer(f) =>
      if s.offer.OIdle? && s.lock.Free? && f.Fits() then
        if s.pending then s
        else s.(lock := Streaming, offer := OCopying(f, 0),
                mailbox := if |s.mailbox| != f.w * f.h then Resized(s.mailbox, f.w * f.h) else s.mailbox)
      else s
    case MissOffer => s
    case CopyRow =>
      if s.offer.OCopying? && s.offer.row < s.offer.frame.h && s.offer.frame.Fits()
         && |s.mailbox| == s.offer.frame.h * s.offer.frame.w then
        var f, row := s.offer.frame, s.offer.row;
        RowEnd(row, f.h, f.w);
        s.(mailbox := s.mailbox[..row * f.w] + Line(f, row) + s.mailbox[row * f.w + f.w..],
           offer := OCopying(f, row + 1))
      else s
    case PublishFrame =>
      if s.offer.OCopying? && s.offer.row == s.offer.frame.h then
        s.(mailboxW := s.offer.frame.w, mailboxH := s.offer.frame.h, pending := true,
           lock := Free, offer := OIdle, accepted := s.accepted + [s.offer.frame])
      else s
    case EnterLoop => if s.worker.WTop? then s.(worker := WWaiting) else s
    case LeaveLoop => if s.worker.WTop? && s.stopRequested then s.(worker := WExited) else s
    case Wake => if s.worker.WWaiting? && s.lock.Free? then s.(worker := WHolding, lock := Working) else s
    case CheckStop =>
      if s.worker.WHolding? then
        if s.stopRequested then s.(worker := WExited, lock := Free) else s.(worker := WPassed)
      else s
    case TakeFrame =>
      if s.worker.WPassed? then
        if s.pending then
          s.(worker := WDetecting(Image(s.mailbox, s.mailboxW, s.mailboxH)), lock := Free, taken := s.taken + 1)
        else s.(worker := WTop, lock := Free)
      else s
    case Detect =>
      if s.worker.WDetecting? then s.(worker := WClearing, inferred := s.inferred + [s.worker.img]) else s
    case ClearPending =>
      if s.worker.WClearing? && s.lock.Free? then s.(worker := WTop, pending := false, cleared := s.cleared + 1) else s
    case RequestStop => s.(stopRequested := true)
  }

  ghost function After(s: State, steps: seq<Step>): State
    decreases |steps|
  {
    if steps == [] then s else After(Apply(s, steps[0]), steps[1..])
  }

  const INITIAL := State([], 0, 0, false, Free, OIdle, WTop, false, [], 0, [], 0)

  ghost predicate LockInv(s: State) {
    && (s.lock.Streaming? <==> s.offer.OCopying?)
    && (s.lock.Working? <==> s.worker.WHolding? || s.worker.WPassed?)
  }

  ghost predicate CopyInv(s: State) {
    s.offer.OCopying? ==>
      var f, row := s.offer.frame, s.offer.row;
      && !s.pending && f.Fits() && row <= f.h
      && |s.mailbox| == f.h * f.w && row * f.w <= |s.mailbox|
      && s.mailbox[..row * f.w] == Packed(f, row)
  }

  ghost predicate SlotInv(s: State) {
    && (forall i :: 0 <= i < |s.accepted| ==> s.accepted[i].Fits())
    && |s.accepted| == s.cleared + (if s.pending then 1 else 0)
    && (s.pending ==> Image(s.mailbox, s.mailboxW, s.mailboxH) == ImageOf(s.accepted[s.cleared]))
  }

  ghost predicate WorkerInv(s: State) {
    && s.taken == s.cleared + (if s.worker.WDetecting? || s.worker.WClearing? then 1 else 0)
    && |s.inferred| == s.cleared + (if s.worker.WClearing? then 1 else 0)
    && (s.worker.WDetecting? || s.worker.WClearing? ==> s.pending)
    && (s.worker.WDetecting?
        ==> s.cleared < |s.accepted| && s.accepted[s.cleared].Fits() && s.worker.img == ImageOf(s.accepted[s.cleared]))
  }

  ghost predicate InferredInv(s: State) {
    |s.inferred| <= |s.accepted|
    && forall i :: 0 <= i < |s.inferred| ==> s.accepted[i].Fits() && s.inferred[i] == ImageOf(s.accepted[i])
  }

  ghost predicate Inv(s: State) {
    LockInv(s) && CopyInv(s) && SlotInv(s) && WorkerInv(s) && InferredInv(s)
  }

  lemma CopyRowKeepsInv(s: State)
    requires Inv(s)
    ensures Inv(Apply(s, CopyRow))
  {
    var t := Apply(s, CopyRow);
    if t != s {
      var f, row := s.offer.frame, s.offer.row;
      RowEnd(row, f.h, f.w);
      Splice(s.mailbox, row * f.w, Line(f, row));
      assert Packed(f, row + 1) == Packed(f, row) + Line(f, row);
    }
  }

  lemma PublishKeepsInv(s: State)
    requires Inv(s)
    ensures Inv(Apply(s, PublishFrame))
  {
    var t := Apply(s, PublishFrame);
    if t != s {
      assert s.mailbox[..s.offer.row * s.offer.frame.w] == s.mailbox;
    }
  }

  lemma TryOfferKeepsInv(s: State, f: Frame)
    requires Inv(s)
    ensures Inv(Apply(s, TryOffer(f)))
  {
    var t := Apply(s, TryOffer(f));
    if t != s {
      assert t.mailbox[..0] == [];
      assert f.w * f.h == f.h * f.w;
    }
  }

  lemma InitialInv()
    ensures Inv(INITIAL)
  {
  }

  lemma StepKeepsInv(s: State, step: Step)
    requires Inv(s)
    ensures Inv(Apply(s, step))
  {
    hide Packed; hide ImageOf;
    match step
    case TryOffer(f) => TryOfferKeepsInv(s, f);
    case CopyRow => CopyRowKeepsInv(s);
    case PublishFrame => PublishKeepsInv(s);
    case _ =>
  }

  /** The slot's contents never change while a frame is pending in it. */
  lemma PendingContentsFrozen(s: State, step: Step)
    requires Inv(s) && s.pending && Apply(s, step).pending
    ensures var t := Apply(s, step);
            t.mailbox == s.mailbox && t.mailboxW == s.mailboxW && t.mailboxH == s.mailboxH && t.accepted == s.accepted
  {
  }

  lemma {:induction false} RunKeepsInv(s: State, steps: seq<Step>)
    requires Inv(s)
    ensures Inv(After(s, steps))
    decreases |steps|
  {
    hide Inv; hide Apply;
    if steps == [] {
    } else {
      StepKeepsInv(s, steps[0]);
      RunKeepsInv(Apply(s, steps[0]), steps[1..]);
    }
  }

  /**
   Over every interleaving: the i-th inference is of the i-th accepted frame,
   packed row by row, and at most one accepted frame has not been inferred.
   */
  lemma HandoffIsFaithful(steps: seq<Step>)
    ensures var s := After(INITIAL, steps);
            && |s.inferred| <= |s.accepted| <= |s.inferred| + 1
            && |s.inferred| <= s.taken <= |s.accepted|
            && (forall i :: 0 <= i < |s.inferred| ==> s.accepted[i].Fits() && s.inferred[i] == ImageOf(s.accepted[i]))
            && (s.worker.WDetecting? ==> s.taken >= 1 && s.accepted[s.taken - 1].Fits()
                                         && s.worker.img == ImageOf(s.accepted[s.taken - 1]))
  {
    hide ImageOf; hide Apply; hide After;
    RunKeepsInv(INITIAL, steps);
  }

  /** How many more frames can be taken once a stop has been requested. */
  ghost function TakesLeft(s: State): nat {
    if s.worker.WPassed? then 1 else 0
  }

  /** While the worker holds the lock nothing becomes pending, and past a stop request it passes no check. */
  lemma StoppedStaysPut(s: State, step: Step)
    requires Inv(s) && s.stopRequested && !(s.worker.WPassed? && s.pending)
    ensures var t := Apply(s, step);
            t.taken == s.taken && !(t.worker.WPassed? && t.pending)
  {
    hide CopyInv; hide SlotInv; hide WorkerInv; hide InferredInv;
  }

  /**
   After a stop request no frame is taken, except a pending one whose stop check
   was already behind the worker.
   */
  lemma {:induction false} StopTakesNoMore(s: State, steps: seq<Step>)
    requires s.stopRequested
    ensures After(s, steps).stopRequested
    ensures s.taken <= After(s, steps).taken <= s.taken + TakesLeft(s)
    ensures Inv(s) && !(s.worker.WPassed? && s.pending) ==> After(s, steps).taken == s.taken
    decreases |steps|
  {
    hide Inv;
    if steps == [] {
    } else {
      var t := Apply(s, steps[0]);
      assert t.stopRequested && s.taken <= t.taken && t.taken + TakesLeft(t) <= s.taken + TakesLeft(s);
      if Inv(s) && !(s.worker.WPassed? && s.pending) {
        StepKeepsInv(s, steps[0]);
        StoppedStaysPut(s, steps[0]);
      }
      StopTakesNoMore(t, steps[1..]);
    }
  }

  /**
   That exception is real: a request that falls between the check and the take
   does not prevent the take of a pending frame.
   */
  lemma StopCanMissOneFrame(s: State)
    requires s.worker.WPassed? && s.pending
    ensures After(s, [RequestStop, TakeFrame]).stopRequested
    ensures After(s, [RequestStop, TakeFrame]).taken == s.taken + 1
  {
    var t := Apply(s, RequestStop);
    assert [RequestStop, TakeFrame][1..] == [TakeFrame] && [TakeFrame][1..] == [];
    assert After(t, [TakeFrame]) == After(Apply(t, TakeFrame), []);
  }

  /**
   Exactly when a stop request comes in time: wherever a run has got to, nothing
   that happens after the request takes a frame, if and only if the worker is not
   past its stop check with a frame pending.
   */
  lemma StopInTimeIff(before: seq<Step>)
    ensures var s := After(INITIAL, before);
            (forall steps :: After(Apply(s, RequestStop), steps).taken == s.taken)
            <==> !(s.worker.WPassed? && s.pending)
  {
    hide Inv;
    InitialInv();
    RunKeepsInv(INITIAL, before);
    var s := After(INITIAL, before);
    var t := Apply(s, RequestStop);
    StepKeepsInv(s, RequestStop);
    if s.worker.WPassed? && s.pending {
      StopCanMissOneFrame(s);
      assert [RequestStop, TakeFrame][1..] == [TakeFrame];
      assert After(t, [TakeFrame]).taken != s.taken;
    } else {
      forall steps ensures After(t, steps).taken == s.taken {
        StopTakesNoMore(t, steps);
      }
    }
  }

  // Frames do get through: what the two sides achieve when they are let run.

  lemma {:induction false} AfterBoth(s: State, first: seq<Step>, second: seq<Step>)
    ensures After(s, first + second) == After(After(s, first), second)
    decreases |first|
  {
    hide Apply;
    if first == [] {
      assert first + second == second;
    } else {
      assert (first + second)[1..] == first[1..] + second;
      AfterBoth(Apply(s, first[0]), first[1..], second);
    }
  }

  function RowCopies(n: nat): (steps: seq<Step>)
    ensures |steps| == n && forall i :: 0 <= i < n ==> steps[i] == CopyRow
  {
    seq(n, _ => CopyRow)
  }

  /** Copying the rows that are left changes only the slot's contents and how far the copy has got. */
  lemma {:induction false} CopiesRun(s: State, n: nat)
    requires Inv(s) && s.offer.OCopying? && s.offer.row + n == s.offer.frame.h
    ensures var t := After(s, RowCopies(n));
            && Inv(t) && t == s.(mailbox := t.mailbox, offer := OCopying(s.offer.frame, s.offer.frame.h))
    decreases n
  {
    hide SlotInv; hide WorkerInv; hide InferredInv; hide Packed;
    if n == 0 {
    } else {
      StepKeepsInv(s, CopyRow);
      assert RowCopies(n)[1..] == RowCopies(n - 1);
      CopiesRun(Apply(s, CopyRow), n - 1);
    }
  }

  lemma OneStep(s: State, step: Step)
    ensures After(s, [step]) == Apply(s, step)
  {
    assert [step][1..] == [];
    assert After(Apply(s, step), []) == Apply(s, step);
  }

  lemma LockOf(s: State)
    requires Inv(s) && s.lock.Free?
    ensures s.offer.OIdle?
  {
  }

  lemma PendingIsLast(s: State)
    requires Inv(s) && s.pending
    ensures s.accepted != [] && s.accepted[|s.accepted| - 1].Fits()
    ensures Image(s.mailbox, s.mailboxW, s.mailboxH) == ImageOf(s.accepted[|s.accepted| - 1])
  {
  }

  /**
   Wherever a run has got to: with the lock free and nothing pending, a frame that
   fits is accepted when it is offered, copied row by row and published, and is
   then what is pending.
   */
  lemma OfferGoesThrough(before: seq<Step>, f: Frame)
    requires f.Fits()
    requires var s := After(INITIAL, before); s.lock.Free? && !s.pending
    ensures var s := After(INITIAL, before);
            var t := After(s, [TryOffer(f)] + RowCopies(f.h) + [PublishFrame]);
            && t.accepted == s.accepted + [f] && t.pending && t.lock.Free? && t.offer.OIdle?
            && Image(t.mailbox, t.mailboxW, t.mailboxH) == ImageOf(f)
            && t.worker == s.worker && t.taken == s.taken && t.inferred == s.inferred
  {
    hide SlotInv; hide WorkerInv; hide InferredInv; hide Packed; hide Inv;
    InitialInv();
    RunKeepsInv(INITIAL, before);
    var s := After(INITIAL, before);
    LockOf(s);
    var s1 := Apply(s, TryOffer(f));
    StepKeepsInv(s, TryOffer(f));
    CopiesRun(s1, f.h);
    var s2 := After(s1, RowCopies(f.h));
    var t := Apply(s2, PublishFrame);
    StepKeepsInv(s2, PublishFrame);
    AfterBoth(s, [TryOffer(f)] + RowCopies(f.h), [PublishFrame]);
    AfterBoth(s, [TryOffer(f)], RowCopies(f.h));
    OneStep(s, TryOffer(f));
    OneStep(s2, PublishFrame);
    PendingIsLast(t);
  }

  /** Otherwise offering changes nothing: with a frame pending, or the lock not to be had. */
  lemma OfferRefused(s: State, f: Frame)
    requires s.pending || !s.lock.Free?
    ensures Apply(s, TryOffer(f)) == s && Apply(s, MissOffer) == s
  {
  }

  /** And a worker at the top of its loop, let run with no stop requested,
      infers the pending frame and frees the slot. */
  lemma PendingIsInferred(before: seq<Step>)
    requires var s := After(INITIAL, before); s.lock.Free? && s.pending && s.worker.WTop? && !s.stopRequested
    ensures var s := After(INITIAL, before);
            var t := After(s, [EnterLoop, Wake, CheckStop, TakeFrame, Detect, ClearPending]);
            && s.accepted != [] && s.accepted[|s.accepted| - 1].Fits()
            && t.inferred == s.inferred + [ImageOf(s.accepted[|s.accepted| - 1])]
            && !t.pending && t.worker.WTop? && t.lock.Free? && t.accepted == s.accepted
  {
    hide Inv; hide ImageOf;
    InitialInv();
    RunKeepsInv(INITIAL, before);
    var s := After(INITIAL, before);
    PendingIsLast(s);
    var steps := [EnterLoop, Wake, CheckStop, TakeFrame, Detect, ClearPending];
    var s1 := Apply(s, EnterLoop);
    var s2 := Apply(s1, Wake);
    var s3 := Apply(s2, CheckStop);
    var s4 := Apply(s3, TakeFrame);
    var s5 := Apply(s4, Detect);
    assert steps[1..] == [Wake, CheckStop, TakeFrame, Detect, ClearPending];
    assert steps[1..][1..] == [CheckStop, TakeFrame, Detect, ClearPending];
    assert steps[1..][1..][1..] == [TakeFrame, Detect, ClearPending];
    assert steps[1..][1..][1..][1..] == [Detect, ClearPending];
    assert steps[1..][1..][1..][1..][1..] == [ClearPending];
    OneStep(s5, ClearPending);
    assert After(s4, [Detect, ClearPending]) == After(s5, [ClearPending]);
    assert After(s3, [TakeFrame, Detect, ClearPending]) == After(s4, [Detect, ClearPending]);
    assert After(s2, [CheckStop, TakeFrame, Detect, ClearPending]) == After(s3, [TakeFrame, Detect, ClearPending]);
    assert After(s1, steps[1..]) == After(s2, steps[1..][1..]);
  }

  /** `memcpy` */
  method CopyBytes(src: array<byte>, from: nat, dst: array<byte>, at: nat, n: nat)
    requires (n == 0 || from + n <= src.Length) && at + n <= dst.Length && src != dst
    modifies dst
    ensures dst[..at + n] == old(dst[..at]) + Bytes(src[..], from, n)
    ensures dst[at + n..] == old(dst[at + n..])
  {
    forall c | 0 <= c < n {
      dst[at + c] := src[from + c];
    }
  }

  lemma PackedNone(f: Frame)
    requires f.Fits()
    ensures Packed(f, 0) == []
  {
  }

  lemma PackedMore(f: Frame, rows: nat)
    requires f.Fits() && rows < f.h
    ensures f.w == 0 || rows * f.Pitch() + f.w <= |f.data|
    ensures Packed(f, rows + 1) == Packed(f, rows) + Bytes(f.data, rows * f.Pitch(), f.w)
  {
    RowFits(f, rows);
  }

  /** The copy itself, in place: row by row into the packed buffer. */
  method CopyLuma(data: array<byte>, w: nat, h: nat, stride: nat, mailbox: array<byte>)
    requires Frame(data[..], w, h, stride).Fits()
    requires mailbox.Length == h * w && mailbox != data
    modifies mailbox
    ensures mailbox[..] == Packed(Frame(data[..], w, h, stride), h)
  {
    hide Packed; hide Line; hide Frame.Fits;
    ghost var f := Frame(data[..], w, h, stride);
    var pitch := if stride != 0 then stride else w;
    var row := 0;
    PackedNone(f);
    while row < h
      invariant 0 <= row <= h && row * w <= mailbox.Length
      invariant mailbox[..row * w] == Packed(f, row)
      invariant data[..] == f.data
    {
      RowFits(f, row);
      RowEnd(row, h, w);
      PackedMore(f, row);
      var at, from := row * w, row * pitch;
      CopyBytes(data, from, mailbox, at, w);
      row := row + 1;
    }
    assert mailbox[..] == mailbox[..h * w];
  }
}
