/** Non-uniformity correction: the timed shutter, accumulate, read-back, reopen sequence. */
module Nuc {
  import opened Words
  import opened Sums
  import opened Bits
  import opened IspDevice
  import opened Mmio

  datatype NucConfig = NucConfig(log2Frames: u32, shutterTimeoutMs: int, accumulateTimeoutMs: int, tableEntries: u32)

  datatype Code = HalShutter | Timeout

  datatype NucResult =
    | Done(durationMs: int, entries: u32, meanOffset: int)
    | Failed(code: Code, where: string)

  const SHUTTER_FAULT := Failed(HalShutter, "nuc: shutter reports FAULT")
  const NOT_CLOSED := Failed(HalShutter, "nuc: shutter did not close")
  const NOT_ACCUMULATED := Failed(Timeout, "nuc: accumulation did not finish")
  const NOT_REOPENED := Failed(HalShutter, "nuc: shutter did not reopen")

  /** What a poll waits for. */
  datatype Condition = ShutterIdle | AccumulationDone
  {
    function Register(): (off: u32)
      ensures AlignedInside(off)
    {
      if ShutterIdle? then SHUTTER else NUC_ACC_CTRL
    }

    function Flag(): nat {
      if ShutterIdle? then 4 else 8
    }

    ghost predicate Met(w: u32) {
      if ShutterIdle? then !Bit(w, 4) else Bit(w, 8)
    }

    /** Can time alone bring the condition about? */
    ghost predicate Armed(m: IspModel, d: Device) {
      if ShutterIdle? then !m.shutterJams else Bit(Peek(d, NUC_ACC_CTRL), 0)
    }

    ghost function ReadyAt(d: Device): int {
      if ShutterIdle? then d.shutterReady else d.accumReady
    }
  }

  /** `e` is `d` except for flag `k` of register `off`. */
  ghost predicate OnlyFlagMayDiffer(d: Device, e: Device, off: u32, k: nat)
    requires AlignedInside(off)
  {
    && e == Poke(d, off, Peek(e, off))
    && forall j: nat :: j != k ==> (Bit(Peek(e, off), j) <==> Bit(Peek(d, off), j))
  }

  lemma ClearingBusy(w: u32)
    ensures forall j: nat :: Bit(AndNot(w, BUSY), j) <==> Bit(w, j) && j != 4
  {
    forall j: nat ensures Bit(AndNot(w, BUSY), j) <==> Bit(w, j) && j != 4 {
      MaskBits(j);
      BitOfAndNot(w, BUSY, j);
    }
  }

  lemma SettingDone(w: u32)
    ensures forall j: nat :: Bit(Or(w, DONE), j) <==> Bit(w, j) || j == 8
  {
    forall j: nat ensures Bit(Or(w, DONE), j) <==> Bit(w, j) || j == 8 {
      MaskBits(j);
      BitOfOr(w, DONE, j);
    }
  }

  /** One poll: the flag changes only once its time has come. */
  lemma ReadStep(m: IspModel, d: Device, c: Condition, now: int)
    ensures var e := ReadAt(m, d, c.Register(), now);
            && OnlyFlagMayDiffer(d, e, c.Register(), c.Flag())
            && (c.Met(Peek(e, c.Register()))
                <==> c.Met(Peek(d, c.Register())) || (c.Armed(m, d) && now >= c.ReadyAt(d)))
            && ReadValue(m, d, c.Register(), now) == Peek(e, c.Register())
    ensures c.Armed(m, d) ==> ReadAsksClock(m, d, c.Register())
  {
    hide And; hide Or; hide AndNot; hide Bit;
    var w := Peek(d, c.Register());
    FlagTest(w);
    ClearingBusy(w);
    SettingDone(w);
  }

  lemma FlagChain(a: Device, b: Device, c: Device, off: u32, k: nat)
    requires AlignedInside(off) && OnlyFlagMayDiffer(a, b, off, k) && OnlyFlagMayDiffer(b, c, off, k)
    ensures OnlyFlagMayDiffer(a, c, off, k)
  {
  }

  predicate Holds(c: Condition, w: u32) {
    if c.ShutterIdle? then And(w, BUSY) == 0 else And(w, DONE) != 0
  }

  lemma HoldsIsMet(c: Condition, w: u32)
    ensures Holds(c, w) <==> c.Met(w)
  {
    FlagTest(w);
  }

  lemma SameArming(m: IspModel, d: Device, e: Device, c: Condition)
    requires OnlyFlagMayDiffer(d, e, c.Register(), c.Flag())
    ensures c.Armed(m, e) <==> c.Armed(m, d)
    ensures c.ReadyAt(e) == c.ReadyAt(d)
  {
  }

  /**
   Terminates for every steady clock. Success means the condition holds, and if
   it did not hold at first, that its time has really come; failure of a condition
   that time could have met means one poll was too early and the clock was past
   the deadline at the very next reading.
   */
  method PollUntil(dev: FakeMmio, clock: Clock, c: Condition, timeoutMs: int) returns (ok: bool)
    requires dev.Valid() && clock.Steady()
    modifies dev, dev.words, clock
    ensures OnlyFlagMayDiffer(old(dev.State()), dev.State(), c.Register(), c.Flag())
    ensures ok <==> c.Met(Peek(dev.State(), c.Register()))
    ensures clock.ticks > old(clock.ticks)
    ensures ok && !c.Met(old(Peek(dev.State(), c.Register()))) ==>
              && c.Armed(dev.model, old(dev.State()))
              && clock.readings(clock.ticks - 1) >= c.ReadyAt(old(dev.State()))
    ensures !ok && c.Armed(dev.model, old(dev.State())) ==>
              && clock.ticks >= 2
              && clock.readings(clock.ticks - 2) < c.ReadyAt(old(dev.State()))
              && clock.readings(clock.ticks - 1) >= clock.readings(old(clock.ticks)) + timeoutMs * NS_PER_MS
    ensures !ok ==> clock.readings(clock.ticks - 1) >= clock.readings(old(clock.ticks)) + timeoutMs * NS_PER_MS
    ensures !ok ==> !c.Met(old(Peek(dev.State(), c.Register())))
  {
    hide And; hide Bit; hide ReadAt; hide ReadValue; hide ReadAsksClock; hide Condition.Met;
    ghost var d0 := dev.State();
    var start := clock.Now();
    var deadline := start + timeoutMs * NS_PER_MS;
    assert clock.Passes(deadline);
    ghost var last: nat :| clock.readings(last) >= deadline;
    ghost var polls := 0;
    while true
      invariant OnlyFlagMayDiffer(d0, dev.State(), c.Register(), c.Flag())
      invariant polls > 0 ==> !c.Met(Peek(dev.State(), c.Register())) && clock.ticks <= last
      invariant polls == 0 ==> dev.State() == d0
      invariant !c.Met(Peek(d0, c.Register())) || polls == 0
      invariant clock.ticks > old(clock.ticks)
      decreases if polls == 0 then 1 else 0, last - clock.ticks
    {
      ghost var d := dev.State();
      ghost var t := clock.ticks;
      ReadStep(dev.model, d, c, clock.readings(t));
      SameArming(dev.model, d0, d, c);
      var w := dev.Read32(clock, c.Register());
      FlagChain(d0, d, dev.State(), c.Register(), c.Flag());
      HoldsIsMet(c, w);
      if Holds(c, w) {
        return true;
      }
      var now := clock.Now();
      if now >= deadline {
        return false;
      }
      polls := polls + 1;
    }
  }

  const LOG2N_SHIFT := 16 // a shift by 4
  const LOG2N_MASK: u32 := 0xF0

  /** START with the frame-count field. */
  function AccCommand(log2Frames: u32): u32 {
    Or(START, And((log2Frames * LOG2N_SHIFT) % TWO32, LOG2N_MASK))
  }

  lemma {:induction false} LowBitsSurvive(n: nat, k: nat, j: nat)
    requires j < k
    ensures Bit(n % Pow2(k), j) <==> Bit(n, j)
    decreases k
  {
    HalfMod(n, Pow2(k - 1));
    var r := n % Pow2(k);
    assert r / 2 == (n / 2) % Pow2(k - 1) && r % 2 == n % 2 by {
      assert Pow2(k) == 2 * Pow2(k - 1);
    }
    if j == 0 {
    } else {
      LowBitsSurvive(n / 2, k - 1, j - 1);
    }
  }

  lemma FourDown(x: nat, j: nat)
    requires j >= 4
    ensures Bit(x, j) <==> Bit(x / 16, j - 4)
  {
    assert Bit(x, j) <==> Bit(x / 2 / 2, j - 2);
    assert Bit(x / 4, j - 2) <==> Bit(x / 4 / 2 / 2, j - 4);
  }

  lemma EightDown(x: nat, j: nat)
    requires j >= 8
    ensures Bit(x, j) <==> Bit(x / 256, j - 8)
  {
    FourDown(x, j);
    FourDown(x / 16, j - 4);
  }

  lemma FieldMaskBits(j: nat)
    ensures Bit(LOG2N_MASK, j) <==> 4 <= j < 8
  {
    if j >= 8 {
      EightDown(LOG2N_MASK, j);
      ZeroHasNoBits(j - 8);
    } else if j >= 4 {
      FourDown(LOG2N_MASK, j);
    }
  }

  /** The command starts, does not claim to be done, and carries the low four bits of the frame count. */
  lemma AccCommandBits(log2Frames: u32)
    ensures var acc := AccCommand(log2Frames);
            Bit(acc, 0) && !Bit(acc, 8) && forall j :: 4 <= j < 8 ==> (Bit(acc, j) <==> Bit(log2Frames, j - 4))
  {
    var shifted := (log2Frames * LOG2N_SHIFT) % TWO32;
    var field := And(shifted, LOG2N_MASK);
    forall j: nat ensures Bit(AccCommand(log2Frames), j) <==> j == 0 || (4 <= j < 8 && Bit(shifted, j)) {
      BitOfOr(START, field, j);
      BitOfAnd(shifted, LOG2N_MASK, j);
      FieldMaskBits(j);
      MaskBits(j);
    }
    forall j | 4 <= j < 8 ensures Bit(shifted, j) <==> Bit(log2Frames, j - 4) {
      Pow2At32();
      LowBitsSurvive(log2Frames * 16, 32, j);
      FourDown(log2Frames * 16, j);
    }
  }

  /** What commanding the shutter leaves in its register. */
  lemma ShutterCommandBits(m: IspModel, d: Device, v: u32, now: int)
    ensures var e := WriteAt(m, d, SHUTTER, v, now);
            && e == Poke(d, SHUTTER, Peek(e, SHUTTER)).(shutterReady := now + m.shutterMoveMs * NS_PER_MS)
            && Bit(Peek(e, SHUTTER), 4)
            && (Bit(Peek(e, SHUTTER), 0) <==> Bit(v, 0))
  {
    hide BitAnd; hide Bit;
    var e := WriteAt(m, d, SHUTTER, v, now);
    MaskBits(0);
    MaskBits(4);
    BitOfOr(And(v, CLOSE), BUSY, 4);
    BitOfOr(And(v, CLOSE), BUSY, 0);
    BitOfAnd(v, CLOSE, 0);
    assert e.words == Poke(d, SHUTTER, Peek(e, SHUTTER)).words;
  }

  /** What starting an accumulation leaves in its register. */
  lemma AccCommandWritten(m: IspModel, d: Device, log2Frames: u32, now: int)
    ensures var e := WriteAt(m, d, NUC_ACC_CTRL, AccCommand(log2Frames), now);
            && e == Poke(d, NUC_ACC_CTRL, Peek(e, NUC_ACC_CTRL)).(accumReady := now + m.nucAccumulateMs * NS_PER_MS)
            && Bit(Peek(e, NUC_ACC_CTRL), 0) && !Bit(Peek(e, NUC_ACC_CTRL), 8)
            && forall j :: 4 <= j < 8 ==> (Bit(Peek(e, NUC_ACC_CTRL), j) <==> Bit(log2Frames, j - 4))
    ensures WriteAsksClock(NUC_ACC_CTRL, AccCommand(log2Frames))
  {
    hide BitAnd; hide Bit; hide AccCommand;
    var v := AccCommand(log2Frames);
    var e := WriteAt(m, d, NUC_ACC_CTRL, v, now);
    AccCommandBits(log2Frames);
    FlagTest(v);
    forall j: nat ensures Bit(AndNot(v, DONE), j) <==> Bit(v, j) && j != 8 {
      MaskBits(j);
      BitOfAndNot(v, DONE, j);
    }
    assert e.words == Poke(d, NUC_ACC_CTRL, Peek(e, NUC_ACC_CTRL)).words;
  }

  /** The sum of the first `n` coefficients as the window shows them. */
  function CoefficientSum(table: seq<u32>, n: nat): (sum: nat)
    ensures sum <= n * 65535
  {
    if n == 0 then 0 else CoefficientSum(table, n - 1) + Entry(table, (n - 1) % 65536) % 65536
  }

  /** The registers the sequence uses. */
  predicate Touched(word: nat) {
    word in {SHUTTER / 4, NUC_ACC_CTRL / 4, NUC_TABLE_ADDR / 4, NUC_TABLE_DATA / 4}
  }

  ghost predicate OthersSame(d: Device, e: Device) {
    && e.table == d.table && e.faults == d.faults
    && forall w :: 0 <= w < WORD_COUNT && !Touched(w) ==> e.words[w] == d.words[w]
  }

  /** The clock is never read at intervals longer than `gap`. */
  ghost predicate ReadOften(readings: nat -> int, gap: int) {
    forall i: nat :: readings(i + 1) - readings(i) <= gap
  }

  /** What a read of DATA or a write of ADDR leaves alone. */
  lemma WindowFrame(m: IspModel, d: Device, e: Device, now: int)
    requires e == ReadAt(m, d, NUC_TABLE_DATA, now) || e == WriteAt(m, d, NUC_TABLE_ADDR, 0, now)
    ensures OthersSame(d, e)
    ensures Peek(e, SHUTTER) == Peek(d, SHUTTER) && Peek(e, NUC_ACC_CTRL) == Peek(d, NUC_ACC_CTRL)
    ensures e.shutterReady == d.shutterReady && e.accumReady == d.accumReady
  {
    hide And;
  }

  lemma OthersChain(a: Device, b: Device, c: Device)
    requires OthersSame(a, b) && OthersSame(b, c)
    ensures OthersSame(a, c)
  {
  }

  lemma SameTable(d: Device, e: Device)
    requires OthersSame(d, e)
    ensures e.table == d.table
  {
  }

  /** That is the sum over all `i` below `n` of entry `i mod 65536`, with nothing past the table's end. */
  lemma {:induction false} CoefficientSumIs(table: seq<u32>, n: nat, shown: seq<int>)
    requires |shown| == n
    requires forall i :: 0 <= i < n ==>
               shown[i] == if i % 65536 < |table| then table[i % 65536] % 65536 else 0
    ensures CoefficientSum(table, n) == Sum(shown)
  {
    if n == 0 {
    } else {
      CoefficientSumIs(table, n - 1, shown[..n - 1]);
    }
  }

  lemma CoefficientStep(table: seq<u32>, n: nat)
    ensures CoefficientSum(table, 0) == 0
    ensures CoefficientSum(table, n + 1) == CoefficientSum(table, n) + Entry(table, n % 65536) % 65536
  {
    hide Entry;
  }

  lemma NextIndex(a: nat, i: nat)
    requires a % 65536 == i % 65536
    ensures (a % 65536 + 1) % 65536 == (i + 1) % 65536
  {
  }

  /** Reads the table through the window from its start. */
  method SumTable(dev: FakeMmio, clock: Clock, entries: u32) returns (sum: int)
    requires dev.Valid()
    modifies dev, dev.words, dev.table, clock
    ensures sum == CoefficientSum(old(dev.State().table), entries)
    ensures OthersSame(old(dev.State()), dev.State())
    ensures Peek(dev.State(), SHUTTER) == old(Peek(dev.State(), SHUTTER))
    ensures Peek(dev.State(), NUC_ACC_CTRL) == old(Peek(dev.State(), NUC_ACC_CTRL))
    ensures clock.ticks == old(clock.ticks)
  {
    hide And; hide ReadAt; hide WriteAt; hide Peek; hide ReadValue; hide OthersSame; hide Entry; hide CoefficientSum;
    ghost var d0 := dev.State();
    CoefficientStep(d0.table, 0);
    sum := 0;
    AddrWriteStep(dev.model, d0, 0, clock.readings(clock.ticks));
    dev.Write32(clock, NUC_TABLE_ADDR, 0);
    WindowFrame(dev.model, d0, dev.State(), clock.readings(old(clock.ticks)));
    var i := 0;
    while i < entries
      invariant 0 <= i <= entries
      invariant sum == CoefficientSum(d0.table, i)
      invariant OthersSame(d0, dev.State())
      invariant Peek(dev.State(), SHUTTER) == Peek(d0, SHUTTER)
          && Peek(dev.State(), NUC_ACC_CTRL) == Peek(d0, NUC_ACC_CTRL)
      invariant Peek(dev.State(), NUC_TABLE_ADDR) % 65536 == i % 65536
      invariant clock.ticks == old(clock.ticks)
    {
      DataReadStep(dev.model, dev.State(), clock.readings(clock.ticks));
      ghost var d := dev.State();
      NextIndex(Peek(d, NUC_TABLE_ADDR), i);
      CoefficientStep(d0.table, i);
      SameTable(d0, d);
      var v := dev.Read32(clock, NUC_TABLE_DATA);
      WindowFrame(dev.model, d, dev.State(), clock.readings(old(clock.ticks)));
      OthersChain(d0, d, dev.State());
      Mask16(v);
      sum := sum + And(v, LOW16);
      i := i + 1;
    }
  }

  lemma MeanBounds(sum: int, entries: u32)
    requires entries > 0 && 0 <= sum <= entries * 65535
    ensures 0 <= sum / entries <= 65535
    ensures sum < 0x8000_0000_0000_0000
  {
    var q := sum / entries;
    assert q * entries <= sum;
    assert q >= 65536 ==> q * entries >= 65536 * entries;
  }

  /** Time that has really passed, in whole milliseconds. */
  lemma DurationBound(elapsedNs: int, ms: int)
    requires 0 <= elapsedNs && elapsedNs >= ms * NS_PER_MS
    ensures elapsedNs / NS_PER_MS >= ms
  {
  }

  /** Chaining the poll's frame with what came before. */
  lemma FlagFrame(d: Device, e: Device, c: Condition)
    requires OnlyFlagMayDiffer(d, e, c.Register(), c.Flag())
    ensures OthersSame(d, e)
    ensures c.ShutterIdle?
        ==> Peek(e, NUC_ACC_CTRL) == Peek(d, NUC_ACC_CTRL) && (Bit(Peek(e, SHUTTER), 0) <==> Bit(Peek(d, SHUTTER), 0))
    ensures c.AccumulationDone? ==> Peek(e, SHUTTER) == Peek(d, SHUTTER)
    ensures c.AccumulationDone? ==>
              forall j :: 4 <= j < 8 ==> (Bit(Peek(e, NUC_ACC_CTRL), j) <==> Bit(Peek(d, NUC_ACC_CTRL), j))
  {
    hide Bit;
  }

  /** Commands the shutter; it is busy until its move time has passed. */
  method CommandShutter(dev: FakeMmio, clock: Clock, v: u32)
    requires dev.Valid()
    modifies dev, dev.words, dev.table, clock
    ensures OthersSame(old(dev.State()), dev.State())
    ensures Peek(dev.State(), NUC_ACC_CTRL) == old(Peek(dev.State(), NUC_ACC_CTRL))
    ensures Bit(Peek(dev.State(), SHUTTER), 4)
    ensures Bit(Peek(dev.State(), SHUTTER), 0) <==> Bit(v, 0)
    ensures dev.shutterReady == clock.readings(old(clock.ticks)) + dev.model.shutterMoveMs * NS_PER_MS
    ensures clock.ticks == old(clock.ticks) + 1
  {
    hide BitAnd; hide Bit; hide WriteAt;
    ShutterCommandBits(dev.model, dev.State(), v, clock.readings(clock.ticks));
    dev.Write32(clock, SHUTTER, v);
  }

  /** Starts an accumulation; it is not done until its time has passed. */
  method StartAccumulation(dev: FakeMmio, clock: Clock, log2Frames: u32)
    requires dev.Valid()
    modifies dev, dev.words, dev.table, clock
    ensures OthersSame(old(dev.State()), dev.State())
    ensures Peek(dev.State(), SHUTTER) == old(Peek(dev.State(), SHUTTER))
    ensures Bit(Peek(dev.State(), NUC_ACC_CTRL), 0) && !Bit(Peek(dev.State(), NUC_ACC_CTRL), 8)
    ensures forall j :: 4 <= j < 8 ==> (Bit(Peek(dev.State(), NUC_ACC_CTRL), j) <==> Bit(log2Frames, j - 4))
    ensures dev.accumReady == clock.readings(old(clock.ticks)) + dev.model.nucAccumulateMs * NS_PER_MS
    ensures clock.ticks == old(clock.ticks) + 1
  {
    hide BitAnd; hide Bit; hide WriteAt; hide AccCommand; hide WriteAsksClock;
    AccCommandWritten(dev.model, dev.State(), log2Frames, clock.readings(clock.ticks));
    dev.Write32(clock, NUC_ACC_CTRL, AccCommand(log2Frames));
  }

  /** Is FAULT set? Looking may clear BUSY and nothing else. */
  method ReadFault(dev: FakeMmio, clock: Clock) returns (fault: bool)
    requires dev.Valid()
    modifies dev, dev.words, clock
    ensures fault <==> Bit(old(Peek(dev.State(), SHUTTER)), 8)
    ensures OnlyFlagMayDiffer(old(dev.State()), dev.State(), SHUTTER, 4)
    ensures clock.ticks >= old(clock.ticks)
  {
    hide And; hide Bit; hide ReadAt; hide ReadValue;
    ReadStep(dev.model, dev.State(), ShutterIdle, clock.readings(clock.ticks));
    var w := dev.Read32(clock, SHUTTER);
    FlagTest(w);
    fault := And(w, FAULT) != 0;
  }

  /** A poll that gave up before the delay was over must have been preceded by a gap longer than the slack. */
  lemma TooSoon(clock: Clock, commanded: nat, start: nat, delayMs: int, timeoutMs: int, end: nat)
    requires clock.Steady() && commanded <= start && end >= 2
    requires clock.readings(end - 2) < clock.readings(commanded) + delayMs * NS_PER_MS
    requires clock.readings(end - 1) >= clock.readings(start) + timeoutMs * NS_PER_MS
    ensures forall gap: int :: ReadOften(clock.readings, gap) ==> delayMs * NS_PER_MS + gap > timeoutMs * NS_PER_MS
  {
    forall gap: int | ReadOften(clock.readings, gap) ensures delayMs * NS_PER_MS + gap > timeoutMs * NS_PER_MS {
      assert end - 1 == (end - 2) + 1;
      assert clock.readings((end - 2) + 1) - clock.readings(end - 2) <= gap;
    }
  }

  /** Commands the shutter and waits for it: opening or closing really takes the move time. */
  method MoveShutter(dev: FakeMmio, clock: Clock, v: u32, timeoutMs: int) returns (ok: bool)
    requires dev.Valid() && clock.Steady()
    modifies dev, dev.words, dev.table, clock
    ensures OthersSame(old(dev.State()), dev.State())
    ensures Peek(dev.State(), NUC_ACC_CTRL) == old(Peek(dev.State(), NUC_ACC_CTRL))
    ensures Bit(Peek(dev.State(), SHUTTER), 0) <==> Bit(v, 0)
    ensures ok <==> !Bit(Peek(dev.State(), SHUTTER), 4)
    ensures ok ==> !dev.model.shutterJams
    ensures clock.ticks > old(clock.ticks)
    ensures ok ==>
              clock.readings(clock.ticks - 1) >=
                clock.readings(old(clock.ticks)) + dev.model.shutterMoveMs * NS_PER_MS
    ensures !ok && !dev.model.shutterJams ==>
              forall gap: int :: ReadOften(clock.readings, gap) ==>
                dev.model.shutterMoveMs * NS_PER_MS + gap > timeoutMs * NS_PER_MS
  {
    hide And; hide Bit; hide Peek; hide OthersSame; hide OnlyFlagMayDiffer;
    ghost var d0 := dev.State();
    ghost var t0 := clock.ticks;
    CommandShutter(dev, clock, v);
    ghost var d1 := dev.State();
    ok := PollUntil(dev, clock, ShutterIdle, timeoutMs);
    FlagFrame(d1, dev.State(), ShutterIdle);
    OthersChain(d0, d1, dev.State());
    if !ok && !dev.model.shutterJams {
      TooSoon(clock, t0, t0 + 1, dev.model.shutterMoveMs, timeoutMs, clock.ticks);
    }
  }

  /** Starts an accumulation and waits for it: an old DONE does not count. */
  method Accumulate(dev: FakeMmio, clock: Clock, log2Frames: u32, timeoutMs: int) returns (ok: bool)
    requires dev.Valid() && clock.Steady()
    modifies dev, dev.words, dev.table, clock
    ensures OthersSame(old(dev.State()), dev.State())
    ensures Peek(dev.State(), SHUTTER) == old(Peek(dev.State(), SHUTTER))
    ensures forall j :: 4 <= j < 8 ==> (Bit(Peek(dev.State(), NUC_ACC_CTRL), j) <==> Bit(log2Frames, j - 4))
    ensures ok <==> Bit(Peek(dev.State(), NUC_ACC_CTRL), 8)
    ensures clock.ticks > old(clock.ticks)
    ensures ok ==>
              clock.readings(clock.ticks - 1) >=
                clock.readings(old(clock.ticks)) + dev.model.nucAccumulateMs * NS_PER_MS
    ensures !ok ==>
              forall gap: int :: ReadOften(clock.readings, gap) ==>
                dev.model.nucAccumulateMs * NS_PER_MS + gap > timeoutMs * NS_PER_MS
  {
    hide And; hide Bit; hide Peek; hide OthersSame; hide OnlyFlagMayDiffer;
    ghost var d0 := dev.State();
    ghost var t0 := clock.ticks;
    StartAccumulation(dev, clock, log2Frames);
    ghost var d1 := dev.State();
    ok := PollUntil(dev, clock, AccumulationDone, timeoutMs);
    FlagFrame(d1, dev.State(), AccumulationDone);
    OthersChain(d0, d1, dev.State());
    if !ok {
      TooSoon(clock, t0, t0 + 1, dev.model.nucAccumulateMs, timeoutMs, clock.ticks);
    }
  }

  lemma ClosedAndFaulty()
    ensures Bit(CLOSE + FAULT, 0) && Bit(CLOSE + FAULT, 8)
  {
    EightDown(CLOSE + FAULT, 8);
  }

  /** The second half, with the shutter closed: accumulate, sum, reopen. The shutter is commanded open at every exit. */
  method AccumulateAndReopen(dev: FakeMmio, clock: Clock, cfg: NucConfig) returns (ok: bool, failure: NucResult,
      sum: int)
    requires dev.Valid() && clock.Steady()
    modifies dev, dev.words, dev.table, clock
    ensures OthersSame(old(dev.State()), dev.State())
    ensures !Bit(Peek(dev.State(), SHUTTER), 0)
    ensures forall j :: 4 <= j < 8 ==> (Bit(Peek(dev.State(), NUC_ACC_CTRL), j) <==> Bit(cfg.log2Frames, j - 4))
    ensures clock.ticks > old(clock.ticks)
    ensures ok ==>
              && Bit(Peek(dev.State(), NUC_ACC_CTRL), 8) && !Bit(Peek(dev.State(), SHUTTER), 4)
              && sum == CoefficientSum(old(dev.State().table), cfg.tableEntries)
              && clock.readings(clock.ticks - 1) >=
                   clock.readings(old(clock.ticks)) + (dev.model.nucAccumulateMs + dev.model.shutterMoveMs) * NS_PER_MS
    ensures !ok ==> failure == NOT_ACCUMULATED || failure == NOT_REOPENED
    ensures !ok && failure == NOT_ACCUMULATED ==> !Bit(Peek(dev.State(), NUC_ACC_CTRL), 8)
    ensures !ok && failure == NOT_REOPENED ==>
              Bit(Peek(dev.State(), NUC_ACC_CTRL), 8) && Bit(Peek(dev.State(), SHUTTER), 4)
    ensures !ok && !dev.model.shutterJams ==>
              forall gap: int :: ReadOften(clock.readings, gap) ==>
                || dev.model.nucAccumulateMs * NS_PER_MS + gap > cfg.accumulateTimeoutMs * NS_PER_MS
                || dev.model.shutterMoveMs * NS_PER_MS + gap > cfg.shutterTimeoutMs * NS_PER_MS
  {
    hide And; hide Bit; hide Peek; hide OthersSame; hide OnlyFlagMayDiffer;
    ghost var d0 := dev.State();
    sum := 0;
    MaskBits(0);
    ZeroHasNoBits(0);
    failure := NOT_ACCUMULATED;

    // Average the dark scene.
    ok := Accumulate(dev, clock, cfg.log2Frames, cfg.accumulateTimeoutMs);
    ghost var d1 := dev.State();
    if !ok {
      CommandShutter(dev, clock, 0);
      OthersChain(d0, d1, dev.State());
      return;
    }

    // Sum what came out.
    sum := SumTable(dev, clock, cfg.tableEntries);
    OthersChain(d0, d1, dev.State());
    SameTable(d0, d1);

    // Open up, and be sure of that too.
    ghost var d2 := dev.State();
    ok := MoveShutter(dev, clock, 0, cfg.shutterTimeoutMs);
    OthersChain(d0, d2, dev.State());
    failure := NOT_REOPENED;
  }

  /**
   The whole sequence, for every clock, delay, jam and timeout.

   The FAULT refusal leaves CLOSE as found; on every other path the shutter is
   commanded open at the end. So it is left closed exactly when it was closed and
   in FAULT to begin with. Success means both moves and the accumulation were
   really waited for, and returns the mean of the table as the window shows it.
   Delays that fit the timeouts by one clock gap always give success.
   */
  method RunNuc(dev: FakeMmio, clock: Clock, cfg: NucConfig) returns (r: NucResult)
    requires dev.Valid() && clock.Steady()
    modifies dev, dev.words, dev.table, clock
    ensures r == SHUTTER_FAULT <==> Bit(old(Peek(dev.State(), SHUTTER)), 8)
    ensures r == SHUTTER_FAULT ==> OnlyFlagMayDiffer(old(dev.State()), dev.State(), SHUTTER, 4)
    ensures r != SHUTTER_FAULT ==> !Bit(Peek(dev.State(), SHUTTER), 0)
    ensures Bit(Peek(dev.State(), SHUTTER), 0) <==>
              Bit(old(Peek(dev.State(), SHUTTER)), 8) && Bit(old(Peek(dev.State(), SHUTTER)), 0)
    ensures r != SHUTTER_FAULT && dev.model.shutterJams ==> r == NOT_CLOSED
    ensures r.Done? || r in {SHUTTER_FAULT, NOT_CLOSED, NOT_ACCUMULATED, NOT_REOPENED}
    ensures r == NOT_CLOSED ==> Peek(dev.State(), NUC_ACC_CTRL) == old(Peek(dev.State(), NUC_ACC_CTRL))
    ensures r == NOT_ACCUMULATED ==> !Bit(Peek(dev.State(), NUC_ACC_CTRL), 8)
    ensures r == NOT_REOPENED ==> Bit(Peek(dev.State(), NUC_ACC_CTRL), 8) && Bit(Peek(dev.State(), SHUTTER), 4)
    ensures r.Done? ==> Bit(Peek(dev.State(), NUC_ACC_CTRL), 8)
    ensures r.Failed? ==> (r.code == Timeout <==> r.where == "nuc: accumulation did not finish")
    ensures r.Done? ==>
              && clock.ticks > old(clock.ticks)
              && r.durationMs == (clock.readings(clock.ticks - 1) - clock.readings(old(clock.ticks))) / 1_000_000
    ensures r.Done? ==>
              && !Bit(Peek(dev.State(), SHUTTER), 4)
              && r.durationMs >= 2 * dev.model.shutterMoveMs + dev.model.nucAccumulateMs
              && r.entries == cfg.tableEntries
              && r.meanOffset == (if cfg.tableEntries == 0 then 0
                                  else CoefficientSum(old(dev.State().table), cfg.tableEntries) / cfg.tableEntries)
              && 0 <= r.meanOffset <= 65535
    ensures r.Done? || r == NOT_REOPENED || r == NOT_ACCUMULATED ==>
              forall j :: 4 <= j < 8 ==> (Bit(Peek(dev.State(), NUC_ACC_CTRL), j) <==> Bit(cfg.log2Frames, j - 4))
    ensures OthersSame(old(dev.State()), dev.State())
    ensures forall gap: int ::
              && ReadOften(clock.readings, gap)
              && dev.model.shutterMoveMs * NS_PER_MS + gap <= cfg.shutterTimeoutMs * NS_PER_MS
              && dev.model.nucAccumulateMs * NS_PER_MS + gap <= cfg.accumulateTimeoutMs * NS_PER_MS
              && !dev.model.shutterJams && !Bit(old(Peek(dev.State(), SHUTTER)), 8)
              ==> r.Done?
  {
    hide And; hide Bit; hide Peek; hide OthersSame; hide OnlyFlagMayDiffer;
    ghost var d0, m := dev.State(), dev.model;
    MaskBits(0);
    ZeroHasNoBits(0);
    var started := clock.Now();
    var fault := ReadFault(dev, clock);
    FlagFrame(d0, dev.State(), ShutterIdle);
    if fault {
      return SHUTTER_FAULT;
    }

    // First shut, and be sure of it.
    ghost var d1 := dev.State();
    var ok := MoveShutter(dev, clock, CLOSE, cfg.shutterTimeoutMs);
    OthersChain(d0, d1, dev.State());
    ghost var d2 := dev.State();
    if !ok {
      CommandShutter(dev, clock, 0);
      OthersChain(d0, d2, dev.State());
      return NOT_CLOSED;
    }

    var done, failure, sum := AccumulateAndReopen(dev, clock, cfg);
    OthersChain(d0, d2, dev.State());
    SameTable(d0, d2);
    if !done {
      return failure;
    }
    var finished := clock.Now();
    DurationBound(finished - started, 2 * m.shutterMoveMs + m.nucAccumulateMs);
    var mean := 0;
    if cfg.tableEntries > 0 {
      MeanBounds(sum, cfg.tableEntries);
      mean := sum / cfg.tableEntries;
    }
    return Done((finished - started) / NS_PER_MS, cfg.tableEntries, mean);
  }

  /** A shutter that the refusal leaves closed: SHUTTER reads CLOSE and FAULT. */
  method RefusedWhileClosed(dev: FakeMmio, clock: Clock, cfg: NucConfig) returns (r: NucResult)
    requires dev.Valid() && clock.Steady() && Peek(dev.State(), SHUTTER) == CLOSE + FAULT
    modifies dev, dev.words, dev.table, clock
    ensures r == SHUTTER_FAULT && Bit(Peek(dev.State(), SHUTTER), 0)
  {
    hide Bit; hide Peek; hide OthersSame; hide OnlyFlagMayDiffer;
    ClosedAndFaulty();
    r := RunNuc(dev, clock, cfg);
  }
}
