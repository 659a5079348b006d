/** The DMA channels by number: which registers each of them moves data from or to,
    what every call leaves in its descriptor, and where in the control word it does. */
module DmaChannels {
  import opened Dma

  /** A primary channel, or its alternate. */
  predicate Either(c: int, channel: int) {
    c == channel || c == channel + 16
  }

  /** The table with the pointers of one descriptor moved. */
  function Pointed(t: Table, i: int, source: int, destination: int): Table
    requires 0 <= i < 32
  {
    t[i := t[i].(srcEndPtr := source, destEndPtr := destination)]
  }

  /** SPI, UART, I2C slave, I2C master and DAC are written at their own data register,
      the ADCs from their own first register on; no other number does anything. */
  lemma OutChannels(regs: Registers, t: Table, c: int, n: int, buf: int)
    ensures var now := Step(regs, t, PtrOut(c, n, buf));
      && (Either(c, 1) ==> now == Pointed(t, c - 1, buf + n - 1, regs.SPITX))
      && (Either(c, 3) ==> now == Pointed(t, c - 1, buf + n - 1, regs.COMTX))
      && (Either(c, 5) ==> now == Pointed(t, c - 1, buf + n - 1, regs.I2CSTX))
      && (Either(c, 7) ==> now == Pointed(t, c - 1, buf + n - 1, regs.I2CMTX))
      && (Either(c, 9) ==> now == Pointed(t, c - 1, buf + n - 1, regs.DACDAT))
      && (Either(c, 10) ==> now == Pointed(t, c - 1, buf + n - 1, regs.MSKI0 + regs.mskiSize * (n - 1)))
      && (Either(c, 11) ==> now == Pointed(t, c - 1, buf + n - 1, regs.MSKI1 + regs.mskiSize * (n - 1)))
      && (Either(c, 1) || Either(c, 3) || Either(c, 5) || Either(c, 7) || Either(c, 9) || Either(c, 10)
          || Either(c, 11) || now == t)
  {
  }

  /** SPI, UART, I2C slave and I2C master are read at their own data register. */
  lemma InChannels(regs: Registers, t: Table, c: int, n: int, buf: int)
    ensures var now := Step(regs, t, PtrIn(c, n, buf));
      && (Either(c, 2) ==> now == Pointed(t, c - 1, regs.SPIRX, buf + n - 1))
      && (Either(c, 4) ==> now == Pointed(t, c - 1, regs.COMRX, buf + n - 1))
      && (Either(c, 6) ==> now == Pointed(t, c - 1, regs.I2CSRX, buf + n - 1))
      && (Either(c, 8) ==> now == Pointed(t, c - 1, regs.I2CMRX, buf + n - 1))
      && (Either(c, 2) || Either(c, 4) || Either(c, 6) || Either(c, 8) || now == t)
  {
  }

  /** What a configuration word asks for, all of a control word but mode and count. */
  function Asked(mode: u3, cfg: uint32, last: u10): CtrlCfgBits {
    CtrlCfgBits(mode, 0, last, 0, 0, 0, cfg / 0x100_0000 % 4, cfg / 0x400_0000 % 4, cfg / 0x100_0000 % 4,
                cfg / 0x4000_0000)
  }

  /** ADC0, ADC1 and the SINC2 filter are read at their own result register, through
      the channels 10, 11 and 12 or their alternates; no other kind does anything. */
  lemma Conversions(regs: Registers, t: Table, kind: int, cfg: uint32, n: int, buf: int, junk: Descriptor)
    ensures var now := Step(regs, t, AdcRead(kind, cfg, n, buf, junk));
      var bits, last := Asked(cfg % 8, cfg, (n - 1) % 1024), buf + 4 * (n - 1);
      && (kind == 1 ==> now == t[9 := Descriptor(regs.DAT0, last, bits, junk.reserved4Bytes)])
      && (kind == 3 ==> now == t[10 := Descriptor(regs.DAT1, last, bits, junk.reserved4Bytes)])
      && (kind == 4 ==> now == t[11 := Descriptor(regs.STEPDAT, last, bits, junk.reserved4Bytes)])
      && (kind == 13 ==> now == t[25 := Descriptor(regs.DAT0, last, bits, junk.reserved4Bytes)])
      && (kind == 15 ==> now == t[26 := Descriptor(regs.DAT1, last, bits, junk.reserved4Bytes)])
      && (kind == 16 ==> now == t[27 := Descriptor(regs.STEPDAT, last, bits, junk.reserved4Bytes)])
      && (kind in {1, 3, 4, 13, 15, 16} || now == t)
  {
  }

  /** Setting a channel up takes sizes and increments from the configuration, asks for
      17 transfers, and leaves mode and pointers to whatever the local held. */
  lemma SetUpInFull(regs: Registers, t: Table, c: int, cfg: uint32, junk: Descriptor)
    requires 1 <= c <= 32
    ensures Step(regs, t, Peripheral(c, cfg, junk))
         == t[c - 1 := junk.(bits := Asked(junk.bits.cycle_ctrl, cfg, 16))]
  {
  }

  lemma CountedInFull(regs: Registers, t: Table, c: int, n: int, cfg: uint32)
    requires 1 <= c <= 32
    ensures Step(regs, t, CycleCnt(c, n, cfg))
         == t[c - 1 := t[c - 1].(bits := t[c - 1].bits.(cycle_ctrl := cfg % 8, n_minus_1 := (n - 1) % 1024))]
  {
  }

  /** The place of every field in the control word. */
  lemma ControlWordPlaces(b: CtrlCfgBits)
    ensures CtrlCfgVal(b) == b.cycle_ctrl + 0x8 * b.next_useburst + 0x10 * b.n_minus_1 + 0x4000 * b.r_power
                           + 0x4_0000 * b.src_prot_ctrl + 0x20_0000 * b.dst_prot_ctrl + 0x100_0000 * b.src_size
                           + 0x400_0000 * b.src_inc + 0x1000_0000 * b.dst_size + 0x4000_0000 * b.dst_inc
  {
  }

  /** So what a caller asks for goes to the control word as it stands: sizes and
      increments keep their bits, and the size is repeated for the destination. */
  lemma RequestKeepsItsBits(size: u2, srcInc: u2, dstInc: u2, mode: u3, last: u10)
    ensures var cfg := Cfg(size, srcInc, dstInc, mode);
      CtrlCfgVal(Asked(cfg % 8, cfg, last)) == cfg + 0x1000_0000 * size + 0x10 * last
  {
    var cfg := Cfg(size, srcInc, dstInc, mode);
    var b := CtrlCfgBits(mode, 0, last, 0, 0, 0, size, srcInc, size, dstInc);
    assert Asked(cfg % 8, cfg, last) == b by {
      RequestReadBack(size, srcInc, dstInc, mode);
    }
    ControlWordPlaces(b);
  }
}
