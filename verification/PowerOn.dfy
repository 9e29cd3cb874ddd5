/** Register-level operations built on the window: read-modify-write and the power-on self-test. */
module PowerOn {
  import opened Words
  import opened Bits
  import opened IspDevice
  import opened Mmio

  datatype Code = HalIdMismatch | BitPowerOn

  datatype BitResult = Pass | Fail(code: Code, where: string)

  const TEMP_MIN: int := -40_000
  const TEMP_MAX: int := 105_000

  /** The same 32 bits read as a signed number. */
  function Signed(x: u32): int {
    if x < TWO32 / 2 then x else x - TWO32
  }

  method AnyBitSet(dev: FakeMmio, clock: Clock, off: u32, mask: u32) returns (any: bool)
    requires dev.Valid() && AlignedInside(off)
    modifies dev, dev.words, clock
    ensures dev.State() == ReadAt(dev.model, old(dev.State()), off, clock.readings(old(clock.ticks)))
    ensures any <==> AnyBit(Peek(dev.State(), off), mask)
    ensures clock.ticks == old(clock.ticks) + if ReadAsksClock(dev.model, old(dev.State()), off) then 1 else 0
  {
    var v := dev.Read32(clock, off);
    any := And(v, mask) != 0;
  }

  /** The block after reading a register and writing `update` of what was read back to it. */
  ghost function AfterUpdate(m: IspModel, d: Device, off: u32, update: u32 -> u32, readings: nat -> int,
      tick: nat): Device {
    var d1 := ReadAt(m, d, off, readings(tick));
    var tick1 := tick + if AlignedInside(off) && ReadAsksClock(m, d, off) then 1 else 0;
    WriteAt(m, d1, off, update(ReadValue(m, d, off, readings(tick))), readings(tick1))
  }

  /** Read, add bits, write back, with the side effects of both halves. */
  method SetBits(dev: FakeMmio, clock: Clock, off: u32, mask: u32)
    requires dev.Valid()
    modifies dev, dev.words, dev.table, clock
    ensures dev.State() == AfterUpdate(dev.model, old(dev.State()), off, v => Or(v, mask), clock.readings,
        old(clock.ticks))
  {
    hide ReadAt; hide WriteAt; hide ReadValue; hide ReadAsksClock; hide WriteAsksClock; hide Or;
    var v := dev.Read32(clock, off);
    dev.Write32(clock, off, Or(v, mask));
  }

  method ClearBits(dev: FakeMmio, clock: Clock, off: u32, mask: u32)
    requires dev.Valid()
    modifies dev, dev.words, dev.table, clock
    ensures dev.State() == AfterUpdate(dev.model, old(dev.State()), off, v => AndNot(v, mask), clock.readings,
        old(clock.ticks))
  {
    hide ReadAt; hide WriteAt; hide ReadValue; hide ReadAsksClock; hide WriteAsksClock; hide AndNot;
    var v := dev.Read32(clock, off);
    dev.Write32(clock, off, AndNot(v, mask));
  }

  /**
   Setting bits of CTRL never resets the block by accident: the read half cannot
   return SW_RESET, so exactly the asked-for bits are added and RUNNING follows.
   */
  lemma SettingCtrlBits(m: IspModel, d: Device, mask: u32, readings: nat -> int, tick: nat)
    requires DeviceInv(d) && !Bit(mask, 2)
    ensures var e := AfterUpdate(m, d, CTRL, v => Or(v, mask), readings, tick);
            && DeviceInv(e) && RunningIsEnable(e)
            && forall k: nat :: Bit(Peek(e, CTRL), k) <==> Bit(Peek(d, CTRL), k) || Bit(mask, k)
  {
    hide BitAnd; hide Bit;
    var v := Peek(d, CTRL);
    forall k: nat ensures Bit(Or(v, mask), k) <==> Bit(v, k) || Bit(mask, k) {
      BitOfOr(v, mask, k);
    }
    FlagTest(Or(v, mask));
    CtrlWriteKeepsInv(d, Or(v, mask));
  }

  lemma ClearingCtrlBits(m: IspModel, d: Device, mask: u32, readings: nat -> int, tick: nat)
    requires DeviceInv(d)
    ensures var e := AfterUpdate(m, d, CTRL, v => AndNot(v, mask), readings, tick);
            && DeviceInv(e) && RunningIsEnable(e)
            && forall k: nat :: Bit(Peek(e, CTRL), k) <==> Bit(Peek(d, CTRL), k) && !Bit(mask, k)
  {
    hide BitAnd; hide Bit;
    var v := Peek(d, CTRL);
    forall k: nat ensures Bit(AndNot(v, mask), k) <==> Bit(v, k) && !Bit(mask, k) {
      BitOfAndNot(v, mask, k);
    }
    FlagTest(AndNot(v, mask));
    CtrlWriteKeepsInv(d, AndNot(v, mask));
  }

  lemma SelfResetTest()
    ensures AnyBit(SW_RESET, SW_RESET)
  {
    FlagTest(SW_RESET);
    MaskBits(2);
  }

  lemma CtrlWriteInvIfInv(d: Device, v: u32)
    ensures DeviceInv(d) ==> DeviceInv(CtrlWritten(Poke(d, CTRL, v), v))
  {
    if DeviceInv(d) {
      CtrlWriteKeepsInv(d, v);
    }
  }

  /**
   The self-test reports the first check that fails, and passes from every state
   that software accesses can reach.
   */
  method PowerOnBit(dev: FakeMmio, clock: Clock) returns (r: BitResult)
    requires dev.Valid()
    modifies dev, dev.words, dev.table, clock
    ensures var d := old(dev.State());
            && (r == Fail(HalIdMismatch, "bit: ID") <==> Peek(d, ID) != 0x49535031)
            && (r == Fail(HalIdMismatch, "bit: VERSION.major")
                <==> Peek(d, ID) == 0x49535031 && Peek(d, VERSION) / 65536 != 1)
            && (r.Pass? <==> Peek(d, ID) == 0x49535031 && Peek(d, VERSION) / 65536 == 1
                             && -40_000 <= Signed(Peek(d, TEMP_MC)) <= 105_000)
            && r != Fail(BitPowerOn, "bit: CTRL after SW_RESET")
    ensures DeviceInv(old(dev.State())) ==> r.Pass? && DeviceInv(dev.State())
    ensures r.Pass? ==> Peek(dev.State(), CTRL) == 0 && Peek(dev.State(), STATUS) == 0
    ensures r.Fail? && r.code == HalIdMismatch ==> dev.State() == old(dev.State())
  {
    hide And;
    SelfResetTest();
    CtrlWriteInvIfInv(dev.State(), SW_RESET);
    var id := dev.Read32(clock, ID);
    if id != ID_MAGIC {
      return Fail(HalIdMismatch, "bit: ID");
    }
    var version := dev.Read32(clock, VERSION);
    if version / 65536 != 1 {
      return Fail(HalIdMismatch, "bit: VERSION.major");
    }
    dev.Write32(clock, CTRL, SW_RESET);
    var ctrl := dev.Read32(clock, CTRL);
    if ctrl != 0 {
      return Fail(BitPowerOn, "bit: CTRL after SW_RESET");
    }
    var raw := dev.Read32(clock, TEMP_MC);
    var temp := Signed(raw);
    if temp < TEMP_MIN || temp > TEMP_MAX {
      return Fail(BitPowerOn, "bit: TEMP_MC");
    }
    return Pass;
  }
}
