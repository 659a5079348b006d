/** What the DMA controller transfers from the descriptors that the setup routines
    leave, over any run of their calls. */
module DmaTransfers {
  import opened Dma
  import opened Wrappers

  // ----- The controller -----

  /** The address of a transfer, counted back from the last one. */
  function Address(end: int, inc: u2, left: int): int {
    end - Bytes(inc) * left
  }

  /** A descriptor as the controller loads it, by way of its control word. */
  function Loaded(d: Descriptor): (l: Descriptor)
    ensures l == d
  {
    ControlWordRoundTrip(d.bits, 0);
    d.(bits := Fields(CtrlCfgVal(d.bits)))
  }

  /** How far an increment moves the address. */
  function Bytes(inc: u2): nat {
    if inc == 0 then 1 else if inc == 1 then 2 else if inc == 2 then 4 else 0
  }

  /** The number of transfers of a cycle. */
  function Count(d: Descriptor): int {
    Loaded(d).bits.n_minus_1 + 1
  }

  function ReadsFrom(d: Descriptor, k: int): int {
    Address(d.srcEndPtr, Loaded(d).bits.src_inc, Loaded(d).bits.n_minus_1 - k)
  }

  function WritesTo(d: Descriptor, k: int): int {
    Address(d.destEndPtr, Loaded(d).bits.dst_inc, Loaded(d).bits.n_minus_1 - k)
  }

  /** All of n bytes from buf, in order, to registers that lie a stride apart, or to
      one register if that is 0. */
  ghost predicate Sends(d: Descriptor, buf: int, n: int, register: int, stride: int) {
    && Count(d) == n && Loaded(d).bits.src_size == Loaded(d).bits.dst_size == BYTE
    && forall k :: 0 <= k < n ==> ReadsFrom(d, k) == buf + k && WritesTo(d, k) == register + stride * k
  }

  /** n bytes from the register, in order, to all of n bytes at buf. */
  ghost predicate Receives(d: Descriptor, buf: int, n: int, register: int) {
    && Count(d) == n && Loaded(d).bits.src_size == Loaded(d).bits.dst_size == BYTE
    && forall k :: 0 <= k < n ==> ReadsFrom(d, k) == register && WritesTo(d, k) == buf + k
  }

  /** The same for words. */
  ghost predicate ReceivesWords(d: Descriptor, buf: int, n: int, register: int) {
    && Count(d) == n && Loaded(d).bits.src_size == Loaded(d).bits.dst_size == WORD
    && forall k :: 0 <= k < n ==> ReadsFrom(d, k) == register && WritesTo(d, k) == buf + 4 * k
  }

  /** The ten-bit field holds the count for 1 to 1024 values, and for no others. The
      comments allow 0: that makes 1024 transfers. */
  lemma CountIsExact(n: int)
    ensures Last(n) + 1 == n <==> 1 <= n <= 1024
    ensures Last(0) + 1 == 1024
  {
  }

  // ----- What runs keep -----

  /** All of a control word but mode and count. */
  function Shape(b: CtrlCfgBits): CtrlCfgBits {
    b.(cycle_ctrl := 0, n_minus_1 := 0)
  }

  /** No call of a run builds descriptor i anew. */
  predicate NotRebuilt(calls: seq<Request>, i: nat) {
    forall c :: c in calls && Touched(c) == Some(i) ==> !c.Peripheral? && !c.AdcRead?
  }

  /** No call of a run moves a pointer of descriptor i either. */
  predicate OnlyCounted(calls: seq<Request>, i: nat) {
    forall c :: c in calls && Touched(c) == Some(i) ==> c.CycleCnt? || c.Ended?
  }

  lemma {:induction false} ShapeSurvives(regs: Registers, t: Table, calls: seq<Request>, i: nat)
    requires i < 32 && NotRebuilt(calls, i)
    ensures Shape(Run(regs, t, calls)[i].bits) == Shape(t[i].bits)
  {
    if calls != [] {
      var last := calls[|calls| - 1];
      ShapeSurvives(regs, t, calls[..|calls| - 1], i);
      assert last in calls;
    }
  }

  /** All of a descriptor but mode and count. */
  function Fixed(d: Descriptor): Descriptor {
    d.(bits := Shape(d.bits))
  }

  lemma {:induction false} FixedSurvives(regs: Registers, t: Table, calls: seq<Request>, i: nat)
    requires i < 32 && OnlyCounted(calls, i)
    ensures Fixed(Run(regs, t, calls)[i]) == Fixed(t[i])
  {
    if calls != [] {
      var last := calls[|calls| - 1];
      FixedSurvives(regs, t, calls[..|calls| - 1], i);
      assert last in calls;
    }
  }

  // ----- Sending and receiving bytes -----

  /** The control word of a channel that was configured with cfg, and whose last count
      call asked for n transfers in the mode of count. */
  function Requested(cfg: uint32, count: uint32, n: int): CtrlCfgBits
    requires 1 <= n <= 1024
  {
    CtrlCfgBits(Mode(count), 0, n - 1, 0, 0, 0, Size(cfg), SrcInc(cfg), Size(cfg), DstInc(cfg))
  }

  /** A channel is set up, a run of calls follows, then its pointer and its count are
      set: the descriptor that the controller finds. */
  function Programmed(regs: Registers, t: Table, setUp: Request, calls: seq<Request>, pointers: Request,
                      count: uint32): Descriptor
    requires setUp.Peripheral? && (pointers.PtrOut? || pointers.PtrIn?) && pointers.chan == setUp.chan
  {
    var between := Run(regs, Step(regs, t, setUp), calls);
    Step(regs, Step(regs, between, pointers), CycleCnt(setUp.chan, pointers.num, count))[setUp.chan - 1]
  }

  /** For every channel, configuration and count, and whatever calls come between, on
      this channel or others, as long as none builds its descriptor anew: the control
      word decodes to exactly what was asked for. */
  lemma ProgrammedAsRequested(regs: Registers, t: Table, setUp: Request, calls: seq<Request>, pointers: Request,
                              count: uint32)
    requires setUp.Peripheral? && (pointers.PtrOut? || pointers.PtrIn?) && pointers.chan == setUp.chan
    requires NotRebuilt(calls, setUp.chan - 1) && 1 <= pointers.num <= 1024
    ensures var d := Programmed(regs, t, setUp, calls, pointers, count);
      && Loaded(d).bits == Requested(setUp.cfg, count, pointers.num)
      && (Touched(pointers).Some? ==>
            var p := Updated(regs, d, pointers); d.srcEndPtr == p.srcEndPtr && d.destEndPtr == p.destEndPtr)
  {
    var i := setUp.chan - 1;
    var first := Step(regs, t, setUp);
    var between := Run(regs, first, calls);
    ShapeSurvives(regs, first, calls, i);
    SetUpShape(regs, t, setUp);
    var pointed := Step(regs, between, pointers);
    assert pointed[i].bits == between[i].bits;
    CountedShape(between[i].bits, setUp.cfg, count, pointers.num);
  }

  lemma SetUpShape(regs: Registers, t: Table, setUp: Request)
    requires setUp.Peripheral?
    ensures Shape(Step(regs, t, setUp)[setUp.chan - 1].bits) == Shape(Requested(setUp.cfg, 0, 1))
  {
  }

  lemma CountedShape(b: CtrlCfgBits, cfg: uint32, count: uint32, n: int)
    requires Shape(b) == Shape(Requested(cfg, 0, 1)) && 1 <= n <= 1024
    ensures b.(cycle_ctrl := Mode(count), n_minus_1 := Last(n)) == Requested(cfg, count, n)
  {
  }

  /** The first of the registers that a channel delivers to, and how far apart they are. */
  function OutBase(regs: Registers, c: int): int
    requires IsOut(c)
  {
    OutRegister(regs, c, 1)
  }

  function OutStride(regs: Registers, c: int): int
    requires IsOut(c)
  {
    if c == 10 || c == 11 then regs.mskiSize else 0
  }

  lemma OutRegisterAt(regs: Registers, c: int, n: int)
    requires IsOut(c)
    ensures OutRegister(regs, c, n) == OutBase(regs, c) + OutStride(regs, c) * (n - 1)
  {
  }

  /** A memory-to-peripheral channel set up once for bytes sends any buffer of 1 to
      1024 bytes: the controller reads that buffer and no other, in order, and writes
      to the peripheral's register, or for the ADCs to their registers in order. */
  lemma SetUpOnceThenSend(regs: Registers, t: Table, c: int, cfg: uint32, junk: Descriptor, calls: seq<Request>,
                          buf: int, n: int, count: uint32)
    requires 1 <= c <= 32 && IsOut(Base(c)) && 1 <= n <= 1024
    requires Size(cfg) == BYTE && SrcInc(cfg) == BYTE && Bytes(DstInc(cfg)) == OutStride(regs, Base(c))
    requires NotRebuilt(calls, c - 1)
    ensures var d := Programmed(regs, t, Peripheral(c, cfg, junk), calls, PtrOut(c, n, buf), count);
      && Sends(d, buf, n, OutBase(regs, Base(c)), OutStride(regs, Base(c)))
      && Loaded(d).bits == Requested(cfg, count, n)
  {
    var d := Programmed(regs, t, Peripheral(c, cfg, junk), calls, PtrOut(c, n, buf), count);
    ProgrammedAsRequested(regs, t, Peripheral(c, cfg, junk), calls, PtrOut(c, n, buf), count);
    OutRegisterAt(regs, Base(c), n);
    ByteSender(d, buf, n, OutBase(regs, Base(c)), OutStride(regs, Base(c)));
  }

  lemma ByteSender(d: Descriptor, buf: int, n: int, register: int, stride: int)
    requires 1 <= n <= 1024
    requires d.bits.src_size == BYTE && d.bits.dst_size == BYTE
    requires d.bits.src_inc == BYTE && Bytes(d.bits.dst_inc) == stride
    requires d.bits.n_minus_1 == Last(n)
    requires d.srcEndPtr == LastByte(buf, n) && d.destEndPtr == register + stride * (n - 1)
    ensures Sends(d, buf, n, register, stride)
  {
    var last := Last(n);
    assert last == n - 1 && Count(d) == n;
    forall k | 0 <= k < n
      ensures ReadsFrom(d, k) == buf + k && WritesTo(d, k) == register + stride * k
    {
      BackFromLast(buf, BYTE, n, k);
      BackFromLast(register, d.bits.dst_inc, n, k);
    }
  }

  lemma BackFromLast(register: int, inc: u2, n: int, k: int)
    ensures Address(register + Bytes(inc) * (n - 1), inc, n - 1 - k) == register + Bytes(inc) * k
  {
  }

  /** A peripheral-to-memory channel set up once for bytes fills any buffer. */
  lemma SetUpOnceThenReceive(regs: Registers, t: Table, c: int, cfg: uint32, junk: Descriptor, calls: seq<Request>,
                             buf: int, n: int, count: uint32)
    requires 1 <= c <= 32 && IsIn(Base(c)) && 1 <= n <= 1024
    requires Size(cfg) == BYTE && SrcInc(cfg) == NO_INC && DstInc(cfg) == BYTE
    requires NotRebuilt(calls, c - 1)
    ensures var d := Programmed(regs, t, Peripheral(c, cfg, junk), calls, PtrIn(c, n, buf), count);
      && Receives(d, buf, n, InRegister(regs, Base(c)))
      && Loaded(d).bits == Requested(cfg, count, n)
  {
    var d := Programmed(regs, t, Peripheral(c, cfg, junk), calls, PtrIn(c, n, buf), count);
    ProgrammedAsRequested(regs, t, Peripheral(c, cfg, junk), calls, PtrIn(c, n, buf), count);
    ByteReceiver(d, buf, n, InRegister(regs, Base(c)));
  }

  lemma ByteReceiver(d: Descriptor, buf: int, n: int, register: int)
    requires 1 <= n <= 1024
    requires d.srcEndPtr == register && d.destEndPtr == LastByte(buf, n)
    requires d.bits.src_size == BYTE && d.bits.dst_size == BYTE && d.bits.src_inc == NO_INC && d.bits.dst_inc == BYTE
    requires d.bits.n_minus_1 == Last(n)
    ensures Receives(d, buf, n, register)
  {
  }

  lemma StartOfCycle(buf: int, inc: u2, n: int)
    requires 1 <= n <= 1024
    ensures Address(LastByte(buf, n), inc, Last(n)) == buf <==> inc == BYTE || n == 1
    ensures Address(LastWord(buf, n), inc, Last(n)) == buf <==> inc == WORD || n == 1
  {
    assert Last(n) == n - 1;
  }

  /** The pointer calls count in bytes: a cycle starts at its buffer exactly when its
      addresses do so too, or there is nothing to count. */
  lemma StartsAtBuffer(d: Descriptor, buf: int, n: int)
    requires 1 <= n <= 1024 && d.bits.n_minus_1 == Last(n)
    ensures d.srcEndPtr == LastByte(buf, n) ==> (ReadsFrom(d, 0) == buf <==> d.bits.src_inc == BYTE || n == 1)
    ensures d.destEndPtr == LastByte(buf, n) ==> (WritesTo(d, 0) == buf <==> d.bits.dst_inc == BYTE || n == 1)
    ensures d.destEndPtr == LastWord(buf, n) ==> (WritesTo(d, 0) == buf <==> d.bits.dst_inc == WORD || n == 1)
  {
    StartOfCycle(buf, d.bits.src_inc, n);
    StartOfCycle(buf, d.bits.dst_inc, n);
    assert Last(n) - 0 == Last(n);
  }

  // ----- Reading conversions -----

  /** The descriptor of a kind of conversion. */
  function AdcSlot(kind: int): nat
    requires IsAdcRead(AdcBase(kind))
  {
    AdcChannel(AdcBase(kind)) - 1 + if kind > 12 then CCD_SIZE else 0
  }

  /** For every configuration, conversions set up once are set up as asked for, and
      after any run of cycles, ended or cut short, and of calls on other channels, a
      count call in the same mode alone makes the descriptor what it was. */
  lemma ConversionsRearm(regs: Registers, t: Table, kind: int, cfg: uint32, junk: Descriptor,
                         calls: seq<Request>, buf: int, n: int, count: uint32)
    requires IsAdcRead(AdcBase(kind)) && 1 <= n <= 1024 && Mode(count) == Mode(cfg)
    requires OnlyCounted(calls, AdcSlot(kind))
    ensures var i := AdcSlot(kind);
      var first := Step(regs, t, AdcRead(kind, cfg, n, buf, junk));
      var d := Step(regs, Run(regs, first, calls), CycleCnt(i + 1, n, count))[i];
      && d == first[i]
      && Loaded(d).bits == Requested(cfg, cfg, n)
      && d.srcEndPtr == AdcRegister(regs, AdcBase(kind)) && d.destEndPtr == LastWord(buf, n)
  {
    var i := AdcSlot(kind);
    var first := Step(regs, t, AdcRead(kind, cfg, n, buf, junk));
    ConversionsSetUp(regs, t, kind, cfg, junk, buf, n);
    FixedSurvives(regs, first, calls, i);
    Recounted(regs, first[i], Run(regs, first, calls)[i], i + 1, n, count);
  }

  lemma ConversionsSetUp(regs: Registers, t: Table, kind: int, cfg: uint32, junk: Descriptor, buf: int, n: int)
    requires IsAdcRead(AdcBase(kind)) && 1 <= n <= 1024
    ensures AdcSlot(kind) < 32
    ensures var d := Step(regs, t, AdcRead(kind, cfg, n, buf, junk))[AdcSlot(kind)];
      && d.bits == Requested(cfg, cfg, n)
      && d.srcEndPtr == AdcRegister(regs, AdcBase(kind)) && d.destEndPtr == LastWord(buf, n)
  {
    assert Touched(AdcRead(kind, cfg, n, buf, junk)) == Some(AdcSlot(kind));
  }

  /** Set up as words, they fill the buffer then. */
  lemma ConversionsFillTheBuffer(regs: Registers, t: Table, kind: int, cfg: uint32, junk: Descriptor,
                                 calls: seq<Request>, buf: int, n: int, count: uint32)
    requires IsAdcRead(AdcBase(kind)) && 1 <= n <= 1024 && Mode(count) == Mode(cfg)
    requires Size(cfg) == WORD && SrcInc(cfg) == NO_INC && DstInc(cfg) == WORD
    requires OnlyCounted(calls, AdcSlot(kind))
    ensures var i := AdcSlot(kind);
      var first := Step(regs, t, AdcRead(kind, cfg, n, buf, junk));
      var d := Step(regs, Run(regs, first, calls), CycleCnt(i + 1, n, count))[i];
      ReceivesWords(d, buf, n, AdcRegister(regs, AdcBase(kind)))
  {
    var i := AdcSlot(kind);
    var first := Step(regs, t, AdcRead(kind, cfg, n, buf, junk));
    var d := Step(regs, Run(regs, first, calls), CycleCnt(i + 1, n, count))[i];
    ConversionsRearm(regs, t, kind, cfg, junk, calls, buf, n, count);
    WordReceiver(d, buf, n, AdcRegister(regs, AdcBase(kind)));
  }

  lemma WordReceiver(d: Descriptor, buf: int, n: int, register: int)
    requires 1 <= n <= 1024
    requires d.srcEndPtr == register && d.destEndPtr == LastWord(buf, n)
    requires d.bits.src_size == WORD && d.bits.dst_size == WORD && d.bits.src_inc == NO_INC && d.bits.dst_inc == WORD
    requires d.bits.n_minus_1 == Last(n)
    ensures ReceivesWords(d, buf, n, register)
  {
  }

  lemma Recounted(regs: Registers, d: Descriptor, e: Descriptor, c: int, n: int, cfg: uint32)
    requires 1 <= c <= 32 && Fixed(e) == Fixed(d)
    requires d.bits.n_minus_1 == Last(n) && d.bits.cycle_ctrl == Mode(cfg)
    ensures Updated(regs, e, CycleCnt(c, n, cfg)) == d
  {
  }
}
