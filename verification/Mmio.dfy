/** The register window as an object: words, table and ready times changed in place by accesses and their hooks. */
module Mmio {
  import opened Words
  import opened Bits
  import opened IspDevice

  /**
   The steady clock: the k-th call of `Now` returns `readings(k)`, an arbitrary
   non-decreasing sequence that passes every deadline in the end.
   */
  class Clock {
    const readings: nat -> int
    var ticks: nat

    ghost predicate Passes(t: int) {
      exists n: nat :: readings(n) >= t
    }

    ghost predicate Steady() {
      && (forall i: nat, j: nat :: i <= j ==> readings(i) <= readings(j))
      && (forall t :: Passes(t))
    }

    constructor (readings: nat -> int)
      ensures this.readings == readings && ticks == 0
    {
      this.readings := readings;
      ticks := 0;
    }

    method Now() returns (t: int)
      modifies this
      ensures t == readings(old(ticks)) && ticks == old(ticks) + 1
    {
      t := readings(ticks);
      ticks := ticks + 1;
    }
  }

  class FakeMmio {
    const model: IspModel
    const words: array<u32>
    const table: array<u32>
    var shutterReady: int
    var accumReady: int
    var faults: nat

    ghost predicate Valid() {
      words.Length == WORD_COUNT && table.Length == TABLE_SIZE && words != table
    }

    ghost function State(): Device
      requires Valid()
      reads this, words, table
    {
      Device(words[..], table[..], shutterReady, accumReady, faults)
    }

    /** A window of zeroed words with the model installed. */
    constructor (model: IspModel)
      ensures Valid() && fresh(words) && fresh(table)
      ensures this.model == model && State() == Installed()
    {
      this.model := model;
      words := new u32[WORD_COUNT](_ => 0);
      table := new u32[TABLE_SIZE](_ => 0);
      shutterReady, accumReady, faults := 0, 0, 0;
      new;
      words[ID / 4] := ID_MAGIC;
      words[VERSION / 4] := VERSION_1;
      words[GAIN / 4] := UNITY_GAIN;
      words[FRAME_W / 4] := 1920;
      words[FRAME_H / 4] := 1080;
      words[TEMP_MC / 4] := DIE_TEMP;
    }

    /** SW_RESET clears itself and the block; otherwise RUNNING follows ENABLE. */
    method OnCtrlWrite(v: u32)
      requires Valid()
      modifies words
      ensures State() == CtrlWritten(old(State()), v)
    {
      if And(v, SW_RESET) != 0 {
        words[CTRL / 4] := 0;
        words[STATUS / 4] := 0;
        words[FRAME_CNT / 4] := 0;
        words[GAIN / 4] := UNITY_GAIN;
      } else {
        var st := words[STATUS / 4];
        words[STATUS / 4] := if And(v, ENABLE) != 0 then Or(st, RUNNING) else AndNot(st, RUNNING);
      }
    }

    method OnIrqClrWrite(v: u32)
      requires Valid()
      modifies words
      ensures State() == IrqClrWritten(old(State()), v)
    {
      words[STATUS / 4] := AndNot(words[STATUS / 4], v);
      words[IRQ_STAT / 4] := AndNot(words[IRQ_STAT / 4], v);
      words[IRQ_CLR / 4] := 0;
    }

    method OnShutterWrite(clock: Clock, v: u32)
      requires Valid()
      modifies this`shutterReady, words, clock
      ensures State() == ShutterWritten(model, old(State()), v, clock.readings(old(clock.ticks)))
      ensures clock.ticks == old(clock.ticks) + 1
    {
      var now := clock.Now();
      shutterReady := now + model.shutterMoveMs * NS_PER_MS;
      words[SHUTTER / 4] := Or(And(v, CLOSE), BUSY);
    }

    method OnAccWrite(clock: Clock, v: u32)
      requires Valid()
      modifies this`accumReady, words, clock
      ensures State() == AccWritten(model, old(State()), v, clock.readings(old(clock.ticks)))
      ensures clock.ticks == old(clock.ticks) + if AnyBit(v, START) then 1 else 0
    {
      if And(v, START) != 0 {
        var now := clock.Now();
        accumReady := now + model.nucAccumulateMs * NS_PER_MS;
        words[NUC_ACC_CTRL / 4] := AndNot(v, DONE);
      }
    }

    method OnDataWrite(v: u32)
      requires Valid()
      modifies words, table
      ensures State() == DataWritten(old(State()), v)
    {
      var idx := And(words[NUC_TABLE_ADDR / 4], LOW16);
      if idx < TABLE_SIZE {
        table[idx] := And(v, LOW16);
      }
      words[NUC_TABLE_ADDR / 4] := idx + 1;
    }

    method Write32(clock: Clock, off: u32, v: u32)
      requires Valid()
      modifies this, words, table, clock
      ensures State() == WriteAt(model, old(State()), off, v, clock.readings(old(clock.ticks)))
      ensures clock.ticks == old(clock.ticks) + if AlignedInside(off) && WriteAsksClock(off, v) then 1 else 0
    {
      hide And; hide Or; hide AndNot;
      hide CtrlWritten; hide IrqClrWritten; hide ShutterWritten; hide AccWritten; hide DataWritten;
      if !AlignedInside(off) || ReadOnly(off) {
        faults := faults + 1;
        return;
      }
      words[off / 4] := v;
      assert State() == Poke(old(State()), off, v);
      if off == CTRL {
        OnCtrlWrite(v);
      } else if off == IRQ_CLR {
        OnIrqClrWrite(v);
      } else if off == SHUTTER {
        OnShutterWrite(clock, v);
      } else if off == NUC_ACC_CTRL {
        OnAccWrite(clock, v);
      } else if off == NUC_TABLE_DATA {
        OnDataWrite(v);
      }
    }

    method Read32(clock: Clock, off: u32) returns (v: u32)
      requires Valid()
      modifies this, words, clock
      ensures State() == ReadAt(model, old(State()), off, clock.readings(old(clock.ticks)))
      ensures v == ReadValue(model, old(State()), off, clock.readings(old(clock.ticks)))
      ensures clock.ticks == old(clock.ticks) + if AlignedInside(off) && ReadAsksClock(model, old(State()), off)
          then 1 else 0
    {
      if !AlignedInside(off) {
        faults := faults + 1;
        return 0;
      }
      if off == SHUTTER {
        if !model.shutterJams {
          var now := clock.Now();
          if now >= shutterReady {
            words[SHUTTER / 4] := AndNot(words[SHUTTER / 4], BUSY);
          }
        }
      } else if off == NUC_ACC_CTRL {
        var acc := words[NUC_ACC_CTRL / 4];
        if And(acc, START) != 0 {
          var now := clock.Now();
          if now >= accumReady {
            words[NUC_ACC_CTRL / 4] := Or(acc, DONE);
          }
        }
      } else if off == NUC_TABLE_DATA {
        var idx := And(words[NUC_TABLE_ADDR / 4], LOW16);
        words[NUC_TABLE_DATA / 4] := if idx < TABLE_SIZE then table[idx] else 0;
        words[NUC_TABLE_ADDR / 4] := idx + 1;
      }
      return words[off / 4];
    }
  }
}
