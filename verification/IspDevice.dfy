/**
 The ISP_CTRL block behind the fake register window: what each software access
 does to it, as functions of the state, and what no sequence of accesses can
 break. `now` is what the clock would say if the access asked it.
 */
module IspDevice {
  import opened Words
  import opened Bits

  const SIZE := 0x1000
  const WORD_COUNT := 1024
  const TABLE_SIZE := 1024
  const NS_PER_MS := 1_000_000

  const ID: u32 := 0x000
  const VERSION: u32 := 0x004
  const CTRL: u32 := 0x008
  const STATUS: u32 := 0x00C
  const GAIN: u32 := 0x010
  const FRAME_W: u32 := 0x018
  const FRAME_H: u32 := 0x01C
  const FRAME_CNT: u32 := 0x020
  const IRQ_STAT: u32 := 0x028
  const IRQ_CLR: u32 := 0x02C
  const TEMP_MC: u32 := 0x030
  const TS_LO: u32 := 0x034
  const TS_HI: u32 := 0x038
  const SHUTTER: u32 := 0x03C
  const NUC_ACC_CTRL: u32 := 0x040
  const NUC_TABLE_ADDR: u32 := 0x100
  const NUC_TABLE_DATA: u32 := 0x104

  const ID_MAGIC: u32 := 0x49535031
  const VERSION_1: u32 := 0x0001_0000
  const DIE_TEMP: u32 := 41250
  const UNITY_GAIN: u32 := 0x0100

  // Bits, as masks.
  const ENABLE: u32 := 1

  const SW_RESET: u32 := 4
  const RUNNING: u32 := 1
  const CLOSE: u32 := 1
  const BUSY: u32 := 16
  const FAULT: u32 := 256
  const START: u32 := 1
  const DONE: u32 := 256
  const LOW16: u32 := 0xFFFF

  datatype IspModel = IspModel(shutterMoveMs: int, nucAccumulateMs: int, shutterJams: bool)

  type Device = d: DeviceState | |d.words| == WORD_COUNT && |d.table| == TABLE_SIZE
    witness Device(seq(WORD_COUNT, _ => 0), seq(TABLE_SIZE, _ => 0), 0, 0, 0)

  datatype DeviceState = Device(words: seq<u32>, table: seq<u32>, shutterReady: int, accumReady: int, faults: nat)

  predicate AlignedInside(off: u32) {
    off % 4 == 0 && off + 4 <= SIZE
  }

  predicate ReadOnly(off: u32) {
    off in {ID, VERSION, STATUS, FRAME_CNT, IRQ_STAT, TEMP_MC, TS_LO, TS_HI}
  }

  function Peek(d: Device, off: u32): u32
    requires AlignedInside(off)
  {
    d.words[off / 4]
  }

  function Poke(d: Device, off: u32, v: u32): Device
    requires AlignedInside(off)
  {
    d.(words := d.words[off / 4 := v])
  }

  function AnyBit(w: u32, mask: u32): bool {
    And(w, mask) != 0
  }

  // Write side effects, after the word itself has been stored.

  function CtrlWritten(d: Device, v: u32): Device {
    if AnyBit(v, SW_RESET) then Poke(Poke(Poke(Poke(d, CTRL, 0), STATUS, 0), FRAME_CNT, 0), GAIN, UNITY_GAIN)
    else Poke(d, STATUS, if AnyBit(v, ENABLE) then Or(Peek(d, STATUS), RUNNING) else AndNot(Peek(d, STATUS), RUNNING))
  }

  function IrqClrWritten(d: Device, v: u32): Device {
    Poke(Poke(Poke(d, STATUS, AndNot(Peek(d, STATUS), v)), IRQ_STAT, AndNot(Peek(d, IRQ_STAT), v)), IRQ_CLR, 0)
  }

  function ShutterWritten(m: IspModel, d: Device, v: u32, now: int): Device {
    Poke(d, SHUTTER, Or(And(v, CLOSE), BUSY)).(shutterReady := now + m.shutterMoveMs * NS_PER_MS)
  }

  function AccWritten(m: IspModel, d: Device, v: u32, now: int): Device {
    if AnyBit(v, START) then Poke(d, NUC_ACC_CTRL, AndNot(v, DONE)).(accumReady := now + m.nucAccumulateMs * NS_PER_MS)
    else d
  }

  function DataWritten(d: Device, v: u32): Device {
    var idx := And(Peek(d, NUC_TABLE_ADDR), LOW16);
    var d1: Device := if idx < TABLE_SIZE then d.(table := d.table[idx := And(v, LOW16)]) else d;
    Poke(d1, NUC_TABLE_ADDR, idx + 1)
  }

  // Read side effects, before the word is returned.

  function ShutterReading(m: IspModel, d: Device, now: int): Device {
    if !m.shutterJams && now >= d.shutterReady then Poke(d, SHUTTER, AndNot(Peek(d, SHUTTER), BUSY)) else d
  }

  function AccReading(d: Device, now: int): Device {
    var v := Peek(d, NUC_ACC_CTRL);
    if AnyBit(v, START) && now >= d.accumReady then Poke(d, NUC_ACC_CTRL, Or(v, DONE)) else d
  }

  function DataReading(d: Device): Device {
    var idx := And(Peek(d, NUC_TABLE_ADDR), LOW16);
    Poke(Poke(d, NUC_TABLE_DATA, if idx < TABLE_SIZE then d.table[idx] else 0), NUC_TABLE_ADDR, idx + 1)
  }

  /** A software write. */
  function WriteAt(m: IspModel, d: Device, off: u32, v: u32, now: int): Device {
    if !AlignedInside(off) || ReadOnly(off) then d.(faults := d.faults + 1)
    else
      var d1 := Poke(d, off, v);
      if off == CTRL then CtrlWritten(d1, v)
      else if off == IRQ_CLR then IrqClrWritten(d1, v)
      else if off == SHUTTER then ShutterWritten(m, d1, v, now)
      else if off == NUC_ACC_CTRL then AccWritten(m, d1, v, now)
      else if off == NUC_TABLE_DATA then DataWritten(d1, v)
      else d1
  }

  /** The block after a software read. */
  function ReadAt(m: IspModel, d: Device, off: u32, now: int): Device {
    if !AlignedInside(off) then d.(faults := d.faults + 1)
    else if off == SHUTTER then ShutterReading(m, d, now)
    else if off == NUC_ACC_CTRL then AccReading(d, now)
    else if off == NUC_TABLE_DATA then DataReading(d)
    else d
  }

  /** The value a software read returns. */
  function ReadValue(m: IspModel, d: Device, off: u32, now: int): u32 {
    if AlignedInside(off) then Peek(ReadAt(m, d, off, now), off) else 0
  }

  /** Does this access read the clock? */
  predicate WriteAsksClock(off: u32, v: u32) {
    off == SHUTTER || (off == NUC_ACC_CTRL && AnyBit(v, START))
  }

  predicate ReadAsksClock(m: IspModel, d: Device, off: u32) {
    (off == SHUTTER && !m.shutterJams) || (off == NUC_ACC_CTRL && AnyBit(Peek(d, NUC_ACC_CTRL), START))
  }

  /** A fresh window with the model just installed. */
  function Installed(): (d: Device) {
    var zero: Device := Device(seq(WORD_COUNT, _ => 0), seq(TABLE_SIZE, _ => 0), 0, 0, 0);
    Poke(Poke(Poke(Poke(Poke(Poke(zero, ID, ID_MAGIC), VERSION, VERSION_1), GAIN, UNITY_GAIN), FRAME_W, 1920),
      FRAME_H, 1080), TEMP_MC, DIE_TEMP)
  }

  // What software accesses cannot break.

  ghost predicate Identity(d: Device) {
    Peek(d, ID) == ID_MAGIC && Peek(d, VERSION) == VERSION_1 && Peek(d, TEMP_MC) == DIE_TEMP
  }

  ghost predicate SelfClearing(d: Device) {
    !Bit(Peek(d, CTRL), 2) && Peek(d, IRQ_CLR) == 0
  }

  ghost predicate RunningImpliesEnable(d: Device) {
    Bit(Peek(d, STATUS), 0) ==> Bit(Peek(d, CTRL), 0)
  }

  ghost predicate RunningIsEnable(d: Device) {
    Bit(Peek(d, STATUS), 0) <==> Bit(Peek(d, CTRL), 0)
  }

  ghost predicate DeviceInv(d: Device) {
    Identity(d) && SelfClearing(d) && RunningImpliesEnable(d)
  }

  datatype Access = Read(off: u32, now: int) | Write(off: u32, v: u32, now: int)

  function Step(m: IspModel, d: Device, a: Access): Device {
    match a
    case Read(off, now) => ReadAt(m, d, off, now)
    case Write(off, v, now) => WriteAt(m, d, off, v, now)
  }

  function Run(m: IspModel, d: Device, accesses: seq<Access>): Device
    decreases |accesses|
  {
    if accesses == [] then d else Run(m, Step(m, d, accesses[0]), accesses[1..])
  }

  predicate Rejected(a: Access) {
    !AlignedInside(a.off) || (a.Write? && ReadOnly(a.off))
  }

  predicate ClearsRunning(a: Access) {
    a.Write? && a.off == IRQ_CLR && a.v % 2 == 1
  }

  function Rejections(accesses: seq<Access>): nat {
    if accesses == [] then 0 else (if Rejected(accesses[0]) then 1 else 0) + Rejections(accesses[1..])
  }

  lemma SmallPowers()
    ensures Pow2(0) == 1 && Pow2(2) == 4 && Pow2(4) == 16 && Pow2(8) == 256
  {
    Pow2AtSmall();
    Pow2Add(4, 4);
  }

  /** The bits of the one-bit masks. */
  lemma MaskBits(k: nat)
    ensures Bit(1, k) <==> k == 0
    ensures Bit(4, k) <==> k == 2
    ensures Bit(16, k) <==> k == 4
    ensures Bit(256, k) <==> k == 8
  {
    SmallPowers();
    BitOfPow2(0, k);
    BitOfPow2(2, k);
    BitOfPow2(4, k);
    BitOfPow2(8, k);
  }

  /** Testing a flag tests its bit. */
  lemma FlagTest(w: u32)
    ensures AnyBit(w, 1) <==> Bit(w, 0)
    ensures AnyBit(w, 4) <==> Bit(w, 2)
    ensures AnyBit(w, 16) <==> Bit(w, 4)
    ensures AnyBit(w, 256) <==> Bit(w, 8)
  {
    SmallPowers();
    MaskTestsBit(w, 0);
    MaskTestsBit(w, 2);
    MaskTestsBit(w, 4);
    MaskTestsBit(w, 8);
  }

  lemma Mask16(x: u32)
    ensures And(x, LOW16) == x % 65536
  {
    Pow2AtSmall();
    Pow2Add(4, 4);
    Pow2Add(8, 8);
    MaskIsModulo(x, 16);
  }

  lemma CtrlWriteKeepsInv(d: Device, v: u32)
    requires DeviceInv(d)
    ensures DeviceInv(CtrlWritten(Poke(d, CTRL, v), v)) && RunningIsEnable(CtrlWritten(Poke(d, CTRL, v), v))
  {
    FlagTest(v);
    MaskBits(0);
    ZeroHasNoBits(0);
    ZeroHasNoBits(2);
    BitOfOr(Peek(d, STATUS), RUNNING, 0);
    BitOfAndNot(Peek(d, STATUS), RUNNING, 0);
  }

  lemma StepKeepsInv(m: IspModel, d: Device, a: Access)
    requires DeviceInv(d)
    ensures DeviceInv(Step(m, d, a))
    ensures RunningIsEnable(d) && !ClearsRunning(a) ==> RunningIsEnable(Step(m, d, a))
  {
    if a.Write? && a.off == CTRL {
      CtrlWriteKeepsInv(d, a.v);
    } else if a.Write? && a.off == IRQ_CLR {
      BitOfAndNot(Peek(d, STATUS), a.v, 0);
    }
  }

  /** Every sequence of accesses keeps identity, self-clearing and "running only if enabled". */
  lemma {:induction false} RunKeepsInv(m: IspModel, d: Device, accesses: seq<Access>)
    requires DeviceInv(d)
    ensures DeviceInv(Run(m, d, accesses))
    ensures RunningIsEnable(d) && (forall a :: a in accesses ==> !ClearsRunning(a))
        ==> RunningIsEnable(Run(m, d, accesses))
    decreases |accesses|
  {
    hide DeviceInv; hide RunningIsEnable; hide Step;
    if accesses == [] {
    } else {
      StepKeepsInv(m, d, accesses[0]);
      RunKeepsInv(m, Step(m, d, accesses[0]), accesses[1..]);
    }
  }

  // Exactly when RUNNING and ENABLE agree, told from what software wrote.

  predicate WritesCtrl(a: Access) {
    a.Write? && a.off == CTRL
  }

  ghost predicate NoCtrlWrite(accesses: seq<Access>) {
    forall i :: 0 <= i < |accesses| ==> !WritesCtrl(accesses[i])
  }

  /** ENABLE after some accesses: what the last CTRL write asked for. */
  predicate EnabledBy(enabled: bool, accesses: seq<Access>)
    decreases |accesses|
  {
    if accesses == [] then enabled
    else
      var last := accesses[|accesses| - 1];
      if WritesCtrl(last) then Bit(last.v, 0) && !Bit(last.v, 2)
      else EnabledBy(enabled, accesses[..|accesses| - 1])
  }

  /** Access `i` clears RUNNING while the block is enabled, and no CTRL write follows. */
  ghost predicate PartedAt(enabled: bool, accesses: seq<Access>, i: nat)
    requires i < |accesses|
  {
    ClearsRunning(accesses[i]) && EnabledBy(enabled, accesses[..i]) && NoCtrlWrite(accesses[i..])
  }

  ghost predicate Parted(enabled: bool, accesses: seq<Access>) {
    exists i :: 0 <= i < |accesses| && PartedAt(enabled, accesses, i)
  }

  lemma CtrlWriteEnables(d: Device, v: u32)
    ensures Bit(Peek(CtrlWritten(Poke(d, CTRL, v), v), CTRL), 0) <==> Bit(v, 0) && !Bit(v, 2)
  {
    FlagTest(v);
    ZeroHasNoBits(0);
  }

  lemma IrqClrWriteStops(d: Device, v: u32)
    ensures var e := IrqClrWritten(Poke(d, IRQ_CLR, v), v);
            && Peek(e, CTRL) == Peek(d, CTRL)
            && (Bit(Peek(e, STATUS), 0) <==> Bit(Peek(d, STATUS), 0) && v % 2 == 0)
  {
    hide BitAnd;
    BitOfAndNot(Peek(d, STATUS), v, 0);
  }

  /** What one access does to the two bits. */
  lemma StepTogether(m: IspModel, d: Device, a: Access)
    requires DeviceInv(d)
    ensures var e := Step(m, d, a);
            if WritesCtrl(a) then (Bit(Peek(e, CTRL), 0) <==> Bit(a.v, 0) && !Bit(a.v, 2)) && RunningIsEnable(e)
            else
              && (Bit(Peek(e, CTRL), 0) <==> Bit(Peek(d, CTRL), 0))
              && (RunningIsEnable(e) <==> if ClearsRunning(a) then !Bit(Peek(d, CTRL), 0) else RunningIsEnable(d))
  {
    hide BitAnd; hide Bit; hide CtrlWritten; hide IrqClrWritten;
    if WritesCtrl(a) {
      CtrlWriteEnables(d, a.v);
      CtrlWriteKeepsInv(d, a.v);
    } else if a.Write? && a.off == IRQ_CLR {
      IrqClrWriteStops(d, a.v);
    }
  }

  lemma {:induction false} RunMore(m: IspModel, d: Device, accesses: seq<Access>, a: Access)
    ensures Run(m, d, accesses + [a]) == Step(m, Run(m, d, accesses), a)
    decreases |accesses|
  {
    hide Step;
    if accesses == [] {
      assert [] + [a] == [a] && [a][1..] == [];
    } else {
      assert (accesses + [a])[1..] == accesses[1..] + [a];
      RunMore(m, Step(m, d, accesses[0]), accesses[1..], a);
    }
  }

  lemma {:induction false} EnabledWithoutCtrlWrite(enabled: bool, accesses: seq<Access>, i: nat)
    requires i <= |accesses| && NoCtrlWrite(accesses[i..])
    ensures EnabledBy(enabled, accesses) == EnabledBy(enabled, accesses[..i])
    decreases |accesses|
  {
    if i < |accesses| {
      var n := |accesses| - 1;
      assert accesses[n] == accesses[i..][n - i];
      assert accesses[..n][i..] == accesses[i..][..n - i];
      EnabledWithoutCtrlWrite(enabled, accesses[..n], i);
      assert accesses[..n][..i] == accesses[..i];
    } else {
      assert accesses[..i] == accesses;
    }
  }

  lemma NoCtrlWriteMore(accesses: seq<Access>, a: Access)
    ensures NoCtrlWrite(accesses + [a]) <==> NoCtrlWrite(accesses) && !WritesCtrl(a)
  {
    var more := accesses + [a];
    assert more[|accesses|] == a;
    assert forall i :: 0 <= i < |accesses| ==> more[i] == accesses[i];
  }

  /** Whether a sequence parts the two, from whether all but its last access do. */
  lemma PartedMore(enabled: bool, accesses: seq<Access>, a: Access)
    ensures Parted(enabled, accesses + [a]) <==>
            !WritesCtrl(a) && (Parted(enabled, accesses) || (ClearsRunning(a) && EnabledBy(enabled, accesses)))
  {
    hide EnabledBy;
    var n, more := |accesses|, accesses + [a];
    assert more[..n] == accesses && more[n..] == [a];
    assert PartedAt(enabled, more, n) <==> ClearsRunning(a) && EnabledBy(enabled, accesses) && !WritesCtrl(a);
    forall i: nat | i < n
      ensures PartedAt(enabled, more, i) <==> PartedAt(enabled, accesses, i) && !WritesCtrl(a)
    {
      assert more[..i] == accesses[..i] && more[i..] == accesses[i..] + [a];
      NoCtrlWriteMore(accesses[i..], a);
    }
    if Parted(enabled, accesses) && !WritesCtrl(a) {
      var i: nat :| i < n && PartedAt(enabled, accesses, i);
      assert PartedAt(enabled, more, i);
    }
  }

  /** Two that were parted while enabled can only be parted again while enabled. */
  lemma PartedIsEnabled(enabled: bool, accesses: seq<Access>)
    requires Parted(enabled, accesses)
    ensures EnabledBy(enabled, accesses)
  {
    var i: nat :| i < |accesses| && PartedAt(enabled, accesses, i);
    EnabledWithoutCtrlWrite(enabled, accesses, i);
  }

  lemma EnabledThroughout(enabled: bool, accesses: seq<Access>)
    requires NoCtrlWrite(accesses)
    ensures EnabledBy(enabled, accesses) == enabled
  {
    assert accesses[0..] == accesses;
    EnabledWithoutCtrlWrite(enabled, accesses, 0);
  }

  lemma NothingParts(enabled: bool)
    ensures NoCtrlWrite([]) && !Parted(enabled, [])
  {
  }

  /** Where the two differ it is RUNNING that is clear. */
  lemma ApartIsEnabled(d: Device)
    requires DeviceInv(d)
    ensures RunningIsEnable(d) || Bit(Peek(d, CTRL), 0)
  {
  }

  /**
   After any accesses RUNNING equals ENABLE exactly when no write has cleared
   RUNNING on an enabled block since the last CTRL write, and the two agreed to
   begin with or there has been a CTRL write.
   */
  lemma {:induction false} RunTogetherIff(m: IspModel, d: Device, accesses: seq<Access>)
    requires DeviceInv(d)
    ensures var e := Run(m, d, accesses);
            && DeviceInv(e)
            && (Bit(Peek(e, CTRL), 0) <==> EnabledBy(Bit(Peek(d, CTRL), 0), accesses))
            && (RunningIsEnable(e) <==>
                  !Parted(Bit(Peek(d, CTRL), 0), accesses) && (RunningIsEnable(d) || !NoCtrlWrite(accesses)))
    decreases |accesses|
  {
    hide DeviceInv; hide Step; hide Bit; hide Peek; hide NoCtrlWrite; hide Parted; hide RunningIsEnable;
    var enabled := Bit(Peek(d, CTRL), 0);
    if accesses == [] {
      assert NoCtrlWrite([]) && !Parted(enabled, []) by {
        NothingParts(enabled);
      }
    } else {
      var n := |accesses| - 1;
      var before, a := accesses[..n], accesses[n];
      assert accesses == before + [a];
      RunTogetherIff(m, d, before);
      RunMore(m, d, before, a);
      var e := Run(m, d, before);
      StepKeepsInv(m, e, a);
      StepTogether(m, e, a);
      PartedMore(enabled, before, a);
      NoCtrlWriteMore(before, a);
      ApartIsEnabled(d);
      if NoCtrlWrite(before) {
        EnabledThroughout(enabled, before);
      }
      if Parted(enabled, before) {
        PartedIsEnabled(enabled, before);
      }
    }
  }

  /** The same from the state the model is installed in. */
  lemma InstalledRunKeepsInv(m: IspModel, accesses: seq<Access>)
    ensures DeviceInv(Run(m, Installed(), accesses))
    ensures RunningIsEnable(Run(m, Installed(), accesses)) <==> !Parted(false, accesses)
    ensures (forall a :: a in accesses ==> !ClearsRunning(a)) ==> RunningIsEnable(Run(m, Installed(), accesses))
  {
    ZeroHasNoBits(0);
    ZeroHasNoBits(2);
    RunKeepsInv(m, Installed(), accesses);
    RunTogetherIff(m, Installed(), accesses);
  }

  /**
   RUNNING and ENABLE can really part: from any state, enabling the block and
   then clearing bit 0 through IRQ_CLR stops RUNNING alone.
   */
  lemma IrqClrCanStopRunningAlone(m: IspModel, d: Device, now: int)
    ensures var e := WriteAt(m, WriteAt(m, d, CTRL, ENABLE, now), IRQ_CLR, 1, now);
            Bit(Peek(e, CTRL), 0) && !Bit(Peek(e, STATUS), 0)
  {
    hide BitAnd; hide Bit; hide And; hide Or;
    var d1 := WriteAt(m, d, CTRL, ENABLE, now);
    FlagTest(ENABLE);
    MaskBits(0);
    MaskBits(2);
    BitOfAndNot(Peek(d1, STATUS), 1, 0);
  }

  /** A rejected access changes nothing but the fault count, and nothing else changes that. */
  lemma {:induction false} FaultsCountRejections(m: IspModel, d: Device, accesses: seq<Access>)
    ensures Run(m, d, accesses).faults == d.faults + Rejections(accesses)
    ensures (forall a :: a in accesses ==> Rejected(a)) ==> Run(m, d, accesses) == d.(faults := d.faults + |accesses|)
    decreases |accesses|
  {
    if accesses == [] {
    } else {
      var d1 := Step(m, d, accesses[0]);
      assert Rejected(accesses[0]) ==> d1 == d.(faults := d.faults + 1);
      assert d1.faults == d.faults + if Rejected(accesses[0]) then 1 else 0;
      FaultsCountRejections(m, d1, accesses[1..]);
    }
  }

  // The register map by address: what each access does to each word, and that it does nothing else.

  ghost predicate SameBut(d: Device, e: Device, words: set<int>) {
    && e.table == d.table && e.shutterReady == d.shutterReady && e.accumReady == d.accumReady && e.faults == d.faults
    && forall w :: 0 <= w < WORD_COUNT && w !in words ==> e.words[w] == d.words[w]
  }

  /** Software cannot write a read-only register, a misaligned one or one outside the window,
      and can write every other. */
  lemma RejectedIff(off: u32)
    ensures !AlignedInside(off) || ReadOnly(off) <==>
            off % 4 != 0 || off > 0xFFC || off in {0x000, 0x004, 0x00C, 0x020, 0x028, 0x030, 0x034, 0x038}
  {
  }

  /** SW_RESET puts CTRL, STATUS and FRAME_CNT to zero and GAIN to unity. */
  lemma ResetWrite(m: IspModel, d: Device, v: u32, now: int)
    requires Bit(v, 2)
    ensures var e := WriteAt(m, d, 0x008, v, now);
            && Peek(e, 0x008) == 0 && Peek(e, 0x00C) == 0 && Peek(e, 0x020) == 0 && Peek(e, 0x010) == 0x100
            && SameBut(d, e, {2, 3, 8, 4})
  {
    hide And; hide Bit;
    FlagTest(v);
  }

  lemma OrBits(x: u32, y: u32, k: nat)
    ensures Bit(Or(x, y), k) <==> Bit(x, k) || Bit(y, k)
  {
    BitOfOr(x, y, k);
  }

  lemma AndNotBits(x: u32, y: u32, k: nat)
    ensures Bit(AndNot(x, y), k) <==> Bit(x, k) && !Bit(y, k)
  {
    BitOfAndNot(x, y, k);
  }

  /** Any other CTRL write is stored, and of STATUS only bit 0 follows it. */
  lemma PlainCtrlWrite(m: IspModel, d: Device, v: u32, now: int)
    requires !Bit(v, 2)
    ensures var e := WriteAt(m, d, 0x008, v, now);
            && Peek(e, 0x008) == v
            && (Bit(Peek(e, 0x00C), 0) <==> Bit(v, 0))
            && (forall k: nat :: k > 0 ==> (Bit(Peek(e, 0x00C), k) <==> Bit(Peek(d, 0x00C), k)))
            && SameBut(d, e, {2, 3})
  {
    hide BitAnd; hide Bit; hide And; hide Or; hide AndNot;
    FlagTest(v);
    forall k: nat
      ensures Bit(Or(Peek(d, STATUS), RUNNING), k) <==> Bit(Peek(d, STATUS), k) || k == 0
      ensures Bit(AndNot(Peek(d, STATUS), RUNNING), k) <==> Bit(Peek(d, STATUS), k) && k != 0
    {
      MaskBits(k);
      OrBits(Peek(d, STATUS), RUNNING, k);
      AndNotBits(Peek(d, STATUS), RUNNING, k);
    }
    var st := Peek(WriteAt(m, d, 0x008, v, now), 0x00C);
    assert st == if Bit(v, 0) then Or(Peek(d, STATUS), RUNNING) else AndNot(Peek(d, STATUS), RUNNING);
    assert Bit(Or(Peek(d, STATUS), RUNNING), 0) && !Bit(AndNot(Peek(d, STATUS), RUNNING), 0);
  }

  /** Writing IRQ_CLR clears exactly the written ones of both sticky registers and reads back zero. */
  lemma IrqClrWrite(m: IspModel, d: Device, v: u32, now: int)
    ensures var e := WriteAt(m, d, 0x02C, v, now);
            && (forall k: nat :: Bit(Peek(e, 0x00C), k) <==> Bit(Peek(d, 0x00C), k) && !Bit(v, k))
            && (forall k: nat :: Bit(Peek(e, 0x028), k) <==> Bit(Peek(d, 0x028), k) && !Bit(v, k))
            && Peek(e, 0x02C) == 0
            && SameBut(d, e, {3, 10, 11})
  {
    hide BitAnd; hide Bit; hide AndNot;
    forall k: nat
      ensures Bit(AndNot(Peek(d, STATUS), v), k) <==> Bit(Peek(d, STATUS), k) && !Bit(v, k)
      ensures Bit(AndNot(Peek(d, IRQ_STAT), v), k) <==> Bit(Peek(d, IRQ_STAT), k) && !Bit(v, k)
    {
      AndNotBits(Peek(d, STATUS), v, k);
      AndNotBits(Peek(d, IRQ_STAT), v, k);
    }
  }

  /** Every register without a side effect holds what was written to it. */
  lemma PlainWrite(m: IspModel, d: Device, off: u32, v: u32, now: int)
    requires AlignedInside(off) && !ReadOnly(off) && off !in {0x008, 0x02C, 0x03C, 0x040, 0x104}
    ensures var e := WriteAt(m, d, off, v, now);
            Peek(e, off) == v && SameBut(d, e, {off / 4})
  {
  }

  /** Reading a register without a side effect returns what it holds and changes nothing. */
  lemma PlainRead(m: IspModel, d: Device, off: u32, now: int)
    requires AlignedInside(off) && off !in {0x03C, 0x040, 0x104}
    ensures ReadAt(m, d, off, now) == d && ReadValue(m, d, off, now) == d.words[off / 4]
  {
  }

  /** The reset values, by address. */
  lemma InstalledValues(off: u32)
    requires AlignedInside(off)
    ensures Peek(Installed(), off) ==
            if off == 0x000 then 0x49535031 else if off == 0x004 then 0x0001_0000 else if off == 0x010 then 0x0100
            else if off == 0x018 then 1920 else if off == 0x01C then 1080 else if off == 0x030 then 41250 else 0
    ensures forall i :: 0 <= i < 1024 ==> Installed().table[i] == 0
  {
  }

  // The coefficient window.

  /** The 16-bit entry the window shows at index `i`; past the table it shows zero. */
  function Entry(table: seq<u32>, i: nat): u32 {
    if i < |table| then table[i] else 0
  }

  function WriteAll(m: IspModel, d: Device, values: seq<u32>): Device
    decreases |values|
  {
    if values == [] then d else WriteAll(m, WriteAt(m, d, NUC_TABLE_DATA, values[0], 0), values[1..])
  }

  /** The block and the values read after `n` reads of DATA. */
  function ReadAll(m: IspModel, d: Device, n: nat): (Device, seq<u32>) {
    if n == 0 then (d, [])
    else
      var (d1, vs) := ReadAll(m, d, n - 1);
      (ReadAt(m, d1, NUC_TABLE_DATA, 0), vs + [ReadValue(m, d1, NUC_TABLE_DATA, 0)])
  }

  /** One write to DATA stores an entry, if there is one, and moves on. */
  lemma DataWriteStep(m: IspModel, d: Device, v: u32)
    ensures var idx := Peek(d, NUC_TABLE_ADDR) % 65536;
            var e := WriteAt(m, d, NUC_TABLE_DATA, v, 0);
            && e.table == (if idx < TABLE_SIZE then d.table[idx := v % 65536] else d.table)
            && Peek(e, NUC_TABLE_ADDR) == idx + 1
  {
    hide And;
    Mask16(Peek(d, NUC_TABLE_ADDR));
    Mask16(v);
  }

  /** One read of DATA shows an entry and moves on. */
  lemma DataReadStep(m: IspModel, d: Device, now: int)
    ensures var idx := Peek(d, NUC_TABLE_ADDR) % 65536;
            var e := ReadAt(m, d, NUC_TABLE_DATA, now);
            && e.table == d.table
            && Peek(e, NUC_TABLE_ADDR) == idx + 1
            && ReadValue(m, d, NUC_TABLE_DATA, now) == Entry(d.table, idx)
  {
    hide And;
    Mask16(Peek(d, NUC_TABLE_ADDR));
  }

  lemma AddrWriteStep(m: IspModel, d: Device, v: u32, now: int)
    ensures var e := WriteAt(m, d, NUC_TABLE_ADDR, v, now);
            e.table == d.table && Peek(e, NUC_TABLE_ADDR) == v
  {
  }

  /** Writing through the window from index `at` fills the table from there and nowhere else. */
  lemma {:induction false} WriteAllFills(m: IspModel, d: Device, values: seq<u32>, at: nat)
    requires Peek(d, NUC_TABLE_ADDR) == at && at + |values| <= TABLE_SIZE
    ensures var e := WriteAll(m, d, values);
            && Peek(e, NUC_TABLE_ADDR) == at + |values|
            && forall i :: 0 <= i < TABLE_SIZE ==>
                 e.table[i] == if at <= i < at + |values| then values[i - at] % 65536 else d.table[i]
    decreases |values|
  {
    hide WriteAt; hide Peek;
    if values == [] {
    } else {
      var v, rest := values[0], values[1..];
      var d1 := WriteAt(m, d, NUC_TABLE_DATA, v, 0);
      DataWriteStep(m, d, v);
      assert at < TABLE_SIZE && at % 65536 == at;
      WriteAllFills(m, d1, rest, at + 1);
    }
  }

  /** Reading shows consecutive entries, the index wrapping at 65536, and changes no entry. */
  lemma {:induction false} ReadAllShows(m: IspModel, d: Device, n: nat)
    ensures var (e, vs) := ReadAll(m, d, n);
            && e.table == d.table && |vs| == n
            && Peek(e, NUC_TABLE_ADDR) % 65536 == (Peek(d, NUC_TABLE_ADDR) + n) % 65536
            && forall i :: 0 <= i < n ==> vs[i] == Entry(d.table, (Peek(d, NUC_TABLE_ADDR) + i) % 65536)
  {
    hide ReadAt; hide ReadValue; hide Peek;
    if n == 0 {
    } else {
      ReadAllShows(m, d, n - 1);
      DataReadStep(m, ReadAll(m, d, n - 1).0, 0);
    }
  }

  /** Write a table from address zero, rewind, read it back: the low 16 bits of what was written. */
  lemma TableRoundTrip(m: IspModel, d: Device, values: seq<u32>)
    requires |values| <= TABLE_SIZE
    ensures var written := WriteAll(m, WriteAt(m, d, NUC_TABLE_ADDR, 0, 0), values);
            var back := ReadAll(m, WriteAt(m, written, NUC_TABLE_ADDR, 0, 0), |values|).1;
            |back| == |values| && forall i :: 0 <= i < |values| ==> back[i] == values[i] % 65536
  {
    hide WriteAt; hide Peek; hide WriteAll; hide ReadAll;
    var start := WriteAt(m, d, NUC_TABLE_ADDR, 0, 0);
    AddrWriteStep(m, d, 0, 0);
    WriteAllFills(m, start, values, 0);
    var written := WriteAll(m, start, values);
    var rewound := WriteAt(m, written, NUC_TABLE_ADDR, 0, 0);
    AddrWriteStep(m, written, 0, 0);
    ReadAllShows(m, rewound, |values|);
    var back := ReadAll(m, rewound, |values|).1;
    forall i | 0 <= i < |values| ensures back[i] == values[i] % 65536 {
      assert (0 + i) % 65536 == i;
      assert back[i] == Entry(rewound.table, i);
    }
  }
}
