/** DMA descriptors: which of the 32 a setup routine writes, the control word it
    leaves, and how calls on different channels keep out of each other's way. Masking
    a field out of a word and shifting it down is division and remainder here.
    Addresses are integers: no buffer wraps around the end of memory. */
module Dma {
  import opened Bits
  import opened Wrappers

  const CCD_SIZE: int := 16
  const ALTERNATE: int := CCD_SIZE

  // ----- The control word -----

  type u1 = x: nat | x < 2
  type u2 = x: nat | x < 4
  type u3 = x: nat | x < 8
  type u4 = x: nat | x < 16
  type u10 = x: nat | x < 1024
  type uint32 = x: nat | x < 0x1_0000_0000

  datatype CtrlCfgBits = CtrlCfgBits(cycle_ctrl: u3, next_useburst: u1, n_minus_1: u10, r_power: u4,
                                     src_prot_ctrl: u3, dst_prot_ctrl: u3, src_size: u2, src_inc: u2,
                                     dst_size: u2, dst_inc: u2)

  /** The word that the bit fields share their memory with, lowest bits first. */
  function CtrlCfgVal(b: CtrlCfgBits): (w: uint32) {
    Above(8, b.cycle_ctrl, Above(2, b.next_useburst, Above(1024, b.n_minus_1, UpperVal(b))))
  }

  function UpperVal(b: CtrlCfgBits): (w: nat)
    ensures w < 0x4_0000
  {
    Above(16, b.r_power, Above(8, b.src_prot_ctrl, Above(8, b.dst_prot_ctrl, SizesVal(b))))
  }

  function SizesVal(b: CtrlCfgBits): (w: nat)
    ensures w < 0x100
  {
    Above(4, b.src_size, Above(4, b.src_inc, Above(4, b.dst_size, b.dst_inc)))
  }

  /** How the DMA controller reads that word: mode in bits 2:0, count in bits 13:4,
      and so on up to the destination increment in bits 31:30. */
  function Fields(w: uint32): CtrlCfgBits {
    var u := w / 8 / 2 / 1024;
    var s := u / 16 / 8 / 8;
    CtrlCfgBits(w % 8, w / 8 % 2, w / 8 / 2 % 1024, u % 16, u / 16 % 8, u / 16 / 8 % 8,
                s % 4, s / 4 % 4, s / 4 / 4 % 4, s / 4 / 4 / 4)
  }

  /** Every field is read as it was written, and every word is one of fields. */
  lemma ControlWordRoundTrip(b: CtrlCfgBits, w: uint32)
    ensures Fields(CtrlCfgVal(b)) == b
    ensures CtrlCfgVal(Fields(w)) == w
  {
    FieldsOfWord(b);
    WordOfFields(w);
  }

  lemma FieldsOfWord(b: CtrlCfgBits)
    ensures Fields(CtrlCfgVal(b)) == b
  {
    var u, s := UpperVal(b), SizesVal(b);
    Split(8, b.cycle_ctrl, Above(2, b.next_useburst, Above(1024, b.n_minus_1, u)));
    Split(2, b.next_useburst, Above(1024, b.n_minus_1, u));
    Split(1024, b.n_minus_1, u);
    Split(16, b.r_power, Above(8, b.src_prot_ctrl, Above(8, b.dst_prot_ctrl, s)));
    Split(8, b.src_prot_ctrl, Above(8, b.dst_prot_ctrl, s));
    Split(8, b.dst_prot_ctrl, s);
    Split(4, b.src_size, Above(4, b.src_inc, Above(4, b.dst_size, b.dst_inc)));
    Split(4, b.src_inc, Above(4, b.dst_size, b.dst_inc));
    Split(4, b.dst_size, b.dst_inc);
  }

  lemma WordOfFields(w: uint32)
    ensures CtrlCfgVal(Fields(w)) == w
  {
  }

  datatype Descriptor = Descriptor(srcEndPtr: int, destEndPtr: int, bits: CtrlCfgBits, reserved4Bytes: uint32)

  /** A configuration as callers write it: the OR of four of the header's constants. */
  function Cfg(size: u2, srcInc: u2, dstInc: u2, mode: u3): uint32 {
    0x100_0000 * size + 0x400_0000 * srcInc + 0x4000_0000 * dstInc + mode
  }

  function Size(cfg: uint32): u2 { cfg / 0x100_0000 % 4 }
  function SrcInc(cfg: uint32): u2 { cfg / 0x400_0000 % 4 }
  function DstInc(cfg: uint32): u2 { cfg / 0x4000_0000 % 4 }
  function Mode(cfg: uint32): u3 { cfg % 8 }

  /** n - 1, cut to the ten bits of its field. */
  function Last(n: int): u10 { (n - 1) % 1024 }

  lemma RequestReadBack(size: u2, srcInc: u2, dstInc: u2, mode: u3)
    ensures var cfg := Cfg(size, srcInc, dstInc, mode);
      Size(cfg) == size && SrcInc(cfg) == srcInc && DstInc(cfg) == dstInc && Mode(cfg) == mode
  {
    var cfg := Cfg(size, srcInc, dstInc, mode);
    assert cfg / 0x4000_0000 == dstInc;
    assert cfg / 0x400_0000 == srcInc + 16 * dstInc;
    assert cfg / 0x100_0000 == size + 4 * srcInc + 64 * dstInc;
    assert cfg == mode + 8 * (0x20_0000 * size + 0x80_0000 * srcInc + 0x800_0000 * dstInc);
  }

  const BYTE: u2 := 0
  const WORD: u2 := 2
  const NO_INC: u2 := 3

  // ----- Channels -----

  /** Conversion of an int to an unsigned int. */
  function Unsigned(x: int): nat {
    x % 0x1_0000_0000
  }

  function GetDescriptor(iChan: int, alternate: bool): Option<nat> {
    if Unsigned(iChan) < CCD_SIZE
    then Some(if alternate then Unsigned(iChan) + CCD_SIZE else Unsigned(iChan))
    else None
  }

  /** The descriptor of a channel number, where numbers beyond 16 select the
      alternate one. */
  function Resolve(iChan: int): Option<nat> {
    if iChan > CCD_SIZE then GetDescriptor(iChan - CCD_SIZE - 1, true) else GetDescriptor(iChan - 1, false)
  }

  newtype int32 = x: int | -0x8000_0000 <= x <= 0x7fff_ffff

  /** A channel number has a descriptor exactly when it is between 1 and 32, and then
      the one just below its number: no two numbers share one. */
  lemma ChannelsAreDistinct(iChan: int32)
    ensures Resolve(iChan as int) == if 1 <= iChan <= 32 then Some(iChan as int - 1) else None
  {
  }

  datatype Registers = Registers(SPITX: int, COMTX: int, I2CSTX: int, I2CMTX: int, DACDAT: int,
                                 MSKI0: int, MSKI1: int, mskiSize: int,
                                 SPIRX: int, COMRX: int, I2CSRX: int, I2CMRX: int,
                                 DAT0: int, DAT1: int, STEPDAT: int)

  /** Where the last of n bytes, or of n words, lies that begin at buf. */
  function LastByte(buf: int, n: int): int { buf + n - 1 }
  function LastWord(buf: int, n: int): int { buf + 4 * (n - 1) }

  /** The channels from memory to a peripheral. */
  predicate IsOut(c: int) {
    c == 1 || c == 3 || c == 5 || c == 7 || c == 9 || c == 10 || c == 11
  }

  /** Where such a channel delivers the last of n values. */
  function OutRegister(regs: Registers, c: int, n: int): int
    requires IsOut(c)
  {
    if c == 1 then regs.SPITX
    else if c == 3 then regs.COMTX
    else if c == 5 then regs.I2CSTX
    else if c == 7 then regs.I2CMTX
    else if c == 9 then regs.DACDAT
    else if c == 10 then regs.MSKI0 + regs.mskiSize * (n - 1)
    else regs.MSKI1 + regs.mskiSize * (n - 1)
  }

  /** The channels from a peripheral to memory that are set up for bytes. */
  predicate IsIn(c: int) {
    c == 2 || c == 4 || c == 6 || c == 8
  }

  function InRegister(regs: Registers, c: int): int
    requires IsIn(c)
  {
    if c == 2 then regs.SPIRX
    else if c == 4 then regs.COMRX
    else if c == 6 then regs.I2CSRX
    else regs.I2CMRX
  }

  /** The kinds of conversions that can be read by DMA. */
  predicate IsAdcRead(kind: int) {
    kind == 1 || kind == 3 || kind == 4
  }

  function AdcRegister(regs: Registers, kind: int): int
    requires IsAdcRead(kind)
  {
    if kind == 1 then regs.DAT0 else if kind == 3 then regs.DAT1 else regs.STEPDAT
  }

  /** The channel that carries them. */
  function AdcChannel(kind: int): int
    requires IsAdcRead(kind)
  {
    if kind == 1 then 10 else if kind == 3 then 11 else 12
  }

  /** A channel number without its alternate part. */
  function Base(iChan: int): int {
    if iChan > CCD_SIZE then iChan - CCD_SIZE else iChan
  }

  function AdcBase(iType: int): int {
    if iType > 12 then iType - 12 else iType
  }

  // ----- Runs -----

  /** A call of a setup routine, or the controller ending a transfer. A descriptor
      built in an uninitialised local has some contents of its own, the junk. */
  datatype Call =
    | Peripheral(chan: int, cfg: uint32, junk: Descriptor)
    | PtrOut(chan: int, num: int, buf: int)
    | PtrIn(chan: int, num: int, buf: int)
    | CycleCnt(chan: int, num: int, cfg: uint32)
    | AdcRead(kind: int, cfg: uint32, num: int, buf: int, junk: Descriptor)
    | Ended(chan: int)

  type Table = t: seq<Descriptor> | |t| == 32 witness seq(32, _ => Descriptor(0, 0, Fields(0), 0))

  /** A call that follows no null pointer and no index out of the array. */
  predicate Allowed(call: Call) {
    call.Peripheral? || call.CycleCnt? || call.Ended? ==> 1 <= call.chan <= 32
  }

  type Request = call: Call | Allowed(call) witness Ended(1)

  /** The descriptor that a call may write. */
  function Touched(call: Request): (t: Option<nat>)
    ensures t.Some? ==> t.value < 32
    ensures t.Some? && !call.AdcRead? ==> t.value == call.chan - 1
  {
    match call
    case PtrOut(c, _, _) =>
      if IsOut(Base(c)) then Some(c - 1) else None
    case PtrIn(c, _, _) =>
      if IsIn(Base(c)) then Some(c - 1) else None
    case AdcRead(k, _, _, _, _) =>
      if IsAdcRead(AdcBase(k))
      then Some(AdcChannel(AdcBase(k)) - 1 + if k > 12 then CCD_SIZE else 0)
      else None
    case _ => Some(call.chan - 1)
  }

  function Configured(b: CtrlCfgBits, cfg: uint32): CtrlCfgBits {
    b.(next_useburst := 0, r_power := 0, src_prot_ctrl := 0, dst_prot_ctrl := 0,
       src_size := Size(cfg), dst_size := Size(cfg), src_inc := SrcInc(cfg), dst_inc := DstInc(cfg))
  }

  /** What a call makes of the descriptor that it touches. */
  function Updated(regs: Registers, d: Descriptor, call: Request): Descriptor
    requires Touched(call).Some?
  {
    match call
    case Peripheral(_, cfg, junk) =>
      junk.(bits := Configured(junk.bits, cfg).(n_minus_1 := 16))
    case PtrOut(c, n, buf) =>
      d.(srcEndPtr := LastByte(buf, n), destEndPtr := OutRegister(regs, Base(c), n))
    case PtrIn(c, n, buf) =>
      d.(srcEndPtr := InRegister(regs, Base(c)), destEndPtr := LastByte(buf, n))
    case CycleCnt(_, n, cfg) =>
      d.(bits := d.bits.(cycle_ctrl := Mode(cfg), n_minus_1 := Last(n)))
    case AdcRead(k, cfg, n, buf, junk) =>
      junk.(srcEndPtr := AdcRegister(regs, AdcBase(k)), destEndPtr := LastWord(buf, n),
            bits := Configured(junk.bits, cfg).(cycle_ctrl := Mode(cfg), n_minus_1 := Last(n)))
    case Ended(_) =>
      d.(bits := d.bits.(cycle_ctrl := 0, n_minus_1 := 0))
  }

  function Step(regs: Registers, t: Table, call: Request): Table {
    match Touched(call)
    case Some(i) => t[i := Updated(regs, t[i], call)]
    case None => t
  }

  function Run(regs: Registers, t: Table, calls: seq<Request>): Table {
    if calls == [] then t else Step(regs, Run(regs, t, calls[..|calls| - 1]), calls[|calls| - 1])
  }

  /** Those of a run's calls that touch descriptor i. */
  function Own(calls: seq<Request>, i: nat): seq<Request> {
    if calls == [] then []
    else
      var c := calls[|calls| - 1];
      Own(calls[..|calls| - 1], i) + if Touched(c) == Some(i) then [c] else []
  }

  /** Over any run, a descriptor is what the calls for its own channel make of it:
      no call for another channel, primary or alternate, has a share in it. */
  lemma {:induction false} OnlyOwnCallsCount(regs: Registers, t: Table, calls: seq<Request>, i: nat)
    requires i < 32
    ensures Run(regs, t, calls)[i] == Run(regs, t, Own(calls, i))[i]
  {
    if calls != [] {
      var rest, c := calls[..|calls| - 1], calls[|calls| - 1];
      OnlyOwnCallsCount(regs, t, rest, i);
      if Touched(c) == Some(i) {
        assert Own(calls, i)[..|Own(calls, i)| - 1] == Own(rest, i);
      } else {
        assert Own(calls, i) == Own(rest, i);
      }
    }
  }

  /** For conversions the alternate descriptor is selected by adding 12, as the
      comments say. The header's ALTERNATE adds 16, and with it nothing is set up. */
  lemma AlternateConversions(call: Call, i: nat)
    requires call.AdcRead? && Touched(call) == Some(i) && call.kind <= 12
    ensures Touched(call.(kind := call.kind + 12)) == Some(i + 16)
    ensures Touched(call.(kind := call.kind + ALTERNATE)) == None
  {
  }

  // ----- The setup routines -----

  class DescriptorTable {
    const regs: Registers
    const dmaChanDesc: array<Descriptor>

    ghost predicate Valid() {
      dmaChanDesc.Length == 32
    }

    constructor (regs: Registers)
      ensures Valid() && this.regs == regs && fresh(dmaChanDesc)
      ensures forall k :: 0 <= k < 32 ==> dmaChanDesc[k] == Descriptor(0, 0, Fields(0), 0)
    {
      this.regs := regs;
      dmaChanDesc := new Descriptor[32](_ => Descriptor(0, 0, Fields(0), 0));
    }

    method DmaPeripheralStructSetup(iChan: int, iCfg: uint32, junk: Descriptor)
      requires Valid() && 1 <= iChan <= 32
      modifies dmaChanDesc
      ensures dmaChanDesc[..] == Step(regs, old(dmaChanDesc[..]), Peripheral(iChan, iCfg, junk))
    {
      var desc := junk;
      var chan, chanSel := iChan, 0;
      if chan > CCD_SIZE {
        chanSel := 1;
        chan := chan - CCD_SIZE;
      }
      desc := desc.(bits := desc.bits.(next_useburst := 0, r_power := 0, src_prot_ctrl := 0, dst_prot_ctrl := 0));
      desc := desc.(bits := desc.bits.(src_size := iCfg / 0x100_0000 % 4,
                                       dst_size := iCfg / 0x100_0000 % 4));
      desc := desc.(bits := desc.bits.(n_minus_1 := 16));
      desc := desc.(bits := desc.bits.(src_inc := iCfg / 0x400_0000 % 4,
                                       dst_inc := iCfg / 0x4000_0000 % 4));
      chan := chan - 1;
      dmaChanDesc[GetDescriptor(chan, chanSel != 0).value] := desc;
    }

    method DmaStructPtrOutSetup(iChan: int, iNumVals: int, pucTX_DMA: int)
      requires Valid()
      modifies dmaChanDesc
      ensures dmaChanDesc[..] == Step(regs, old(dmaChanDesc[..]), PtrOut(iChan, iNumVals, pucTX_DMA))
    {
      ghost var call, was := PtrOut(iChan, iNumVals, pucTX_DMA), dmaChanDesc[..];
      var chan, chanSel := iChan, 0;
      if chan > CCD_SIZE {
        chanSel := 1;
        chan := chan - CCD_SIZE;
      }
      if IsOut(chan) {
        var register := OutRegister(regs, chan, iNumVals);
        chan := chan - 1;
        var at := if chanSel == 0 then chan else chan + CCD_SIZE;
        dmaChanDesc[at] := dmaChanDesc[at].(srcEndPtr := LastByte(pucTX_DMA, iNumVals));
        dmaChanDesc[at] := dmaChanDesc[at].(destEndPtr := register);
        assert Touched(call) == Some(at);
        assert dmaChanDesc[at] == Updated(regs, was[at], call);
        assert dmaChanDesc[..] == was[at := dmaChanDesc[at]];
      } else {
        assert Touched(call) == None;
      }
    }

    method DmaStructPtrInSetup(iChan: int, iNumVals: int, pucRX_DMA: int)
      requires Valid()
      modifies dmaChanDesc
      ensures dmaChanDesc[..] == Step(regs, old(dmaChanDesc[..]), PtrIn(iChan, iNumVals, pucRX_DMA))
    {
      ghost var call, was := PtrIn(iChan, iNumVals, pucRX_DMA), dmaChanDesc[..];
      var chan, chanSel := iChan, 0;
      if chan > CCD_SIZE {
        chanSel := 1;
        chan := chan - CCD_SIZE;
      }
      if IsIn(chan) {
        var register := InRegister(regs, chan);
        chan := chan - 1;
        var at := if chanSel == 0 then chan else chan + CCD_SIZE;
        dmaChanDesc[at] := dmaChanDesc[at].(destEndPtr := LastByte(pucRX_DMA, iNumVals));
        dmaChanDesc[at] := dmaChanDesc[at].(srcEndPtr := register);
        assert Touched(call) == Some(at);
        assert dmaChanDesc[at] == Updated(regs, was[at], call);
        assert dmaChanDesc[..] == was[at := dmaChanDesc[at]];
      } else {
        assert Touched(call) == None;
      }
    }

    method DmaCycleCntCtrl(iChan: int, iNumx: int, iCfg: uint32)
      requires Valid() && 1 <= iChan <= 32
      modifies dmaChanDesc
      ensures dmaChanDesc[..] == Step(regs, old(dmaChanDesc[..]), CycleCnt(iChan, iNumx, iCfg))
    {
      var chan := iChan - 1;
      var bits := dmaChanDesc[chan].bits;
      bits := bits.(cycle_ctrl := iCfg % 8);
      bits := bits.(n_minus_1 := (iNumx - 1) % 1024);
      dmaChanDesc[chan] := dmaChanDesc[chan].(bits := bits);
    }

    method AdcDmaReadSetup(iType: int, iCfg: uint32, iNumVals: int, pucRX_DMA: int, junk: Descriptor)
      requires Valid()
      modifies dmaChanDesc
      ensures dmaChanDesc[..] == Step(regs, old(dmaChanDesc[..]), AdcRead(iType, iCfg, iNumVals, pucRX_DMA, junk))
    {
      ghost var call, was := AdcRead(iType, iCfg, iNumVals, pucRX_DMA, junk), dmaChanDesc[..];
      var desc := junk;
      var kind, chanSel := iType, 0;
      if kind > 12 {
        chanSel := 1;
        kind := kind - 12;
      }
      desc := desc.(bits := desc.bits.(cycle_ctrl := iCfg % 8, next_useburst := 0, r_power := 0,
                                       src_prot_ctrl := 0, dst_prot_ctrl := 0));
      desc := desc.(bits := desc.bits.(src_size := iCfg / 0x100_0000 % 4,
                                       dst_size := iCfg / 0x100_0000 % 4));
      desc := desc.(bits := desc.bits.(n_minus_1 := (iNumVals - 1) % 1024));
      desc := desc.(bits := desc.bits.(src_inc := iCfg / 0x400_0000 % 4,
                                       dst_inc := iCfg / 0x4000_0000 % 4));
      if IsAdcRead(kind) {
        desc := desc.(srcEndPtr := AdcRegister(regs, kind));
        desc := desc.(destEndPtr := LastWord(pucRX_DMA, iNumVals));
        var at := GetDescriptor(AdcChannel(kind) - 1, chanSel != 0).value;
        dmaChanDesc[at] := desc;
        assert Touched(call) == Some(at);
        assert desc == Updated(regs, was[at], call);
        assert dmaChanDesc[..] == was[at := desc];
      } else {
        assert Touched(call) == None;
      }
    }
  }
}
