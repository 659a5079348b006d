/** The PWM driver: the period and duty registers of its channel pairs, the pin
    multiplexing, and the requests that change them. */
module Pwm {

  /** A bit-mapped register: the numbers of the bits that are set. `r | mask` is
      a union, `r & ~mask` a difference, `r & mask` an intersection. */
  type Bits = set<nat>

  type word = x: int | 0 <= x < 0x1_0000

  function Min(a: int, b: int): int { if a <= b then a else b }

  // ----- The registers -----

  /** The registers of one pair of outputs. */
  datatype Pair = Pair(len: word, com0: word, com1: word, com2: word)

  /** Everything the driver writes: pair 0 drives RHREF, pair 1 HEAT; gpcon, gpoen
      and out1 are the mux, output-enable and output bits of port 1; gpcon0, gpoen0,
      gppul0 and out0 are those of port 0, with its pull-up bits. */
  datatype Registers = Registers(
    rhref: Pair, heat: Pair, spare: Pair, con0: Bits, con1: Bits,
    gpcon: Bits, gpoen: Bits, out1: Bits, out0: Bits, gpcon0: Bits, gpoen0: Bits, gppul0: Bits)

  datatype Output = Rhref | Heat {
    /** The two mux bits of the pin in GPCON, and the one that selects PWM. */
    function Mux(): Bits { if Rhref? then {4, 5} else {8, 9} }
    function MuxPwm(): Bits { if Rhref? then {4} else {8} }
    /** The pin's bit in the other registers of port 1. */
    function Bit(): Bits { if Rhref? then {2} else {4} }
  }

  datatype Command =
    | ForceHigh(o: Output)
    | ForceLow(o: Output)
    | Freq(o: Output)
    | Duty(o: Output)
    | MeasureOn
    | MeasureOff
    | Invalid

  datatype Status = Ok | InvalidCommand

  // ----- What the register writes amount to -----

  /** PwmTime on one pair: refused outright unless the high side is at least the
      low side; registers keep 16 bits of what is written. */
  function Timed(p: Pair, freq: nat, high: nat, low: nat): Pair {
    if high < low then p
    else
      var len, com1: word := freq % 0x1_0000, high % 0x1_0000;
      Pair(len, len, com1, if low <= com1 then low else p.com2)
  }

  function FreqRequest(p: Pair, freq: word): Pair {
    if freq == p.len then p else Timed(p, freq, Min(p.com1, freq), 1)
  }

  /** A negative duty would be passed on as a huge unsigned number. */
  function DutyRequest(p: Pair, duty: int): Pair {
    if duty == p.com1 then p else Timed(p, p.len, Min(duty, p.len) % 0x1_0000_0000, 1)
  }

  /** PWMCON0: bit 0 enables the outputs, bit 1 selects the H-bridge mode, bit 3
      asks for the compare registers to be loaded. */
  function Go(con0: Bits, enable: bool): Bits {
    if enable then con0 - {1} + {0} else con0 - {1} - {0}
  }

  function Load(con0: Bits): Bits {
    con0 - {3} + {3}
  }

  function PinsToGpio(r: Registers, o: Output): Registers {
    r.(gpcon := r.gpcon - o.Mux(), gpoen := r.gpoen + o.Bit())
  }

  function PinsDisabled(r: Registers, o: Output): Registers {
    if r.gpcon * o.Mux() != {} then PinsToGpio(r, o) else r
  }

  function PinsEnabled(r: Registers, o: Output): Registers {
    if r.gpcon * o.Mux() == {} then r.(gpcon := r.gpcon - o.Mux() + o.MuxPwm()) else r
  }

  function Driven(r: Registers, o: Output, high: bool): Registers {
    r.(out1 := if high then r.out1 + o.Bit() else r.out1 - o.Bit())
  }

  function PairOf(r: Registers, o: Output): Pair {
    if o.Rhref? then r.rhref else r.heat
  }

  function WithPair(r: Registers, o: Output, p: Pair): Registers {
    if o.Rhref? then r.(rhref := p) else r.(heat := p)
  }

  /** The registers after one ioctl. */
  function Step(r: Registers, cmd: Command, args: nat): Registers {
    var arg: word := args % 0x1_0000;
    match cmd
    case ForceHigh(o) => Driven(PinsDisabled(r, o), o, true)
    case ForceLow(o) => Driven(PinsDisabled(r, o), o, false)
    case Freq(o) =>
      var s, p := PinsEnabled(r, o), PairOf(r, o);
      WithPair(s, o, FreqRequest(p, arg)).(con0 := if arg != p.len then Go(s.con0, true) else s.con0)
    case Duty(o) =>
      var s, p := PinsEnabled(r, o), PairOf(r, o);
      WithPair(s, o, DutyRequest(p, arg)).(con0 := if arg != p.com1 then Load(s.con0) else s.con0)
    case MeasureOn => r.(out0 := r.out0 + {0})
    case MeasureOff => r.(out0 := r.out0 - {0})
    case Invalid => r
  }

  function Initialised(r: Registers): Registers {
    PinsToGpio(PinsToGpio(r.(con0 := {}, con1 := {}), Heat), Rhref)
  }

  // ----- The driver -----

  class Driver {
    var rhref: Pair
    var heat: Pair
    var spare: Pair
    var con0: Bits
    var con1: Bits
    var gpcon: Bits
    var gpoen: Bits
    var out1: Bits
    var out0: Bits
    var gpcon0: Bits
    var gpoen0: Bits
    var gppul0: Bits

    function Regs(): Registers
      reads this
    {
      Registers(rhref, heat, spare, con0, con1, gpcon, gpoen, out1, out0, gpcon0, gpoen0, gppul0)
    }

    /** Writes the timing of the pair: 1 for success, 0 when the high side is
        shorter than the low side, 2 when the value kept in COM1 is. */
    method PwmTime(pair: int, freq: nat, high: nat, low: nat) returns (code: int)
      modifies this`rhref, this`heat, this`spare
      ensures rhref == if pair == 0 then Timed(old(rhref), freq, high, low) else old(rhref)
      ensures heat == if pair == 1 then Timed(old(heat), freq, high, low) else old(heat)
      ensures spare == if pair == 2 then Timed(old(spare), freq, high, low) else old(spare)
      ensures code == if high < low then 0 else if 0 <= pair <= 2 && low > high % 0x1_0000 then 2 else 1
    {
      if high < low {
        return 0;
      }
      match pair
      case 0 =>
        rhref := rhref.(len := freq % 0x1_0000);
        rhref := rhref.(com0 := rhref.len);
        rhref := rhref.(com1 := high % 0x1_0000);
        if low <= rhref.com1 {
          rhref := rhref.(com2 := low);
        } else {
          return 2;
        }
        return 1;
      case 1 =>
        heat := heat.(len := freq % 0x1_0000);
        heat := heat.(com0 := heat.len);
        heat := heat.(com1 := high % 0x1_0000);
        if low <= heat.com1 {
          heat := heat.(com2 := low);
        } else {
          return 2;
        }
        return 1;
      case 2 =>
        spare := spare.(len := freq % 0x1_0000);
        spare := spare.(com0 := spare.len);
        spare := spare.(com1 := high % 0x1_0000);
        if low <= spare.com1 {
          spare := spare.(com2 := low);
        } else {
          return 2;
        }
        return 1;
      case _ =>
        return 1;
    }

    method PwmGo(enable: bool)
      modifies this`con0
      ensures con0 == Go(old(con0), enable)
    {
      con0 := con0 - {1};
      if enable {
        con0 := con0 + {0};
      } else {
        con0 := con0 - {0};
      }
    }

    method PwmLoad()
      modifies this`con0
      ensures con0 == Load(old(con0))
    {
      con0 := con0 - {3} + {3};
    }

    method SetFreq(o: Output, freq: word)
      modifies this`rhref, this`heat, this`spare, this`con0
      ensures var p := PairOf(old(Regs()), o);
        Regs() == WithPair(old(Regs()), o, FreqRequest(p, freq)).(
          con0 := if freq != p.len then Go(old(con0), true) else old(con0))
    {
      var oldFreq, duty, pair := if o.Rhref? then rhref.len else heat.len,
                                 if o.Rhref? then rhref.com1 else heat.com1,
                                 if o.Rhref? then 0 else 1;
      if freq != oldFreq {
        if duty > freq {
          duty := freq;
        }
        PwmGo(false);
        var _ := PwmTime(pair, freq, duty, 1);
        PwmGo(true);
      }
    }

    method SetDuty(o: Output, duty: int)
      modifies this`rhref, this`heat, this`spare, this`con0
      ensures var p := PairOf(old(Regs()), o);
        Regs() == WithPair(old(Regs()), o, DutyRequest(p, duty)).(
          con0 := if duty != p.com1 then Load(old(con0)) else old(con0))
    {
      var freq, oldDuty, pair := if o.Rhref? then rhref.len else heat.len,
                                 if o.Rhref? then rhref.com1 else heat.com1,
                                 if o.Rhref? then 0 else 1;
      if duty != oldDuty {
        var high := duty;
        if high > freq {
          high := freq;
        }
        var _ := PwmTime(pair, freq, high % 0x1_0000_0000, 1);
        PwmLoad();
      }
    }

    method PinsDisable(o: Output)
      modifies this`gpcon, this`gpoen
      ensures Regs() == PinsDisabled(old(Regs()), o)
    {
      if gpcon * o.Mux() != {} {
        gpcon := gpcon - o.Mux();
        gpoen := gpoen + o.Bit();
      }
    }

    method PinsEnable(o: Output)
      modifies this`gpcon
      ensures Regs() == PinsEnabled(old(Regs()), o)
    {
      if gpcon * o.Mux() == {} {
        gpcon := gpcon - o.Mux() + o.MuxPwm();
      }
    }

    /** DioSet or DioClr on the output's bit of port 1. */
    method Drive(o: Output, high: bool)
      modifies this`out1
      ensures Regs() == Driven(old(Regs()), o, high)
    {
      out1 := if high then out1 + o.Bit() else out1 - o.Bit();
    }

    method Init()
      modifies this
      ensures Regs() == Initialised(old(Regs()))
    {
      con0, con1 := {}, {};
      gpcon, gpoen := gpcon - Heat.Mux(), gpoen + Heat.Bit();
      gpcon, gpoen := gpcon - Rhref.Mux(), gpoen + Rhref.Bit();
    }

    method Ioctl(cmd: Command, args: nat) returns (status: Status)
      modifies this
      ensures Regs() == Step(old(Regs()), cmd, args)
      ensures status == if cmd.Invalid? then InvalidCommand else Ok
    {
      status := Ok;
      match cmd
      case ForceHigh(o) =>
        PinsDisable(o);
        Drive(o, true);
      case ForceLow(o) =>
        PinsDisable(o);
        Drive(o, false);
      case Freq(o) =>
        PinsEnable(o);
        SetFreq(o, args % 0x1_0000);
      case Duty(o) =>
        PinsEnable(o);
        SetDuty(o, args % 0x1_0000);
      case MeasureOn =>
        out0 := out0 + {0};
      case MeasureOff =>
        out0 := out0 - {0};
      case Invalid =>
        status := InvalidCommand;
    }

    /** Pin 0 of port 0 becomes a GPIO output with pull-up. */
    method ConfigureMeasure()
      modifies this`gpcon0, this`gpoen0, this`gppul0
      ensures Regs() == MeasureConfigured(old(Regs()))
    {
      gpcon0 := gpcon0 - {0, 1};
      gpoen0 := gpoen0 - {0} + {0};
      gppul0 := gppul0 - {0} + {0};
    }

    /** Opening configures that pin, enables the outputs, forces both PWM pins high and
        starts measuring. */
    method Open()
      modifies this
      ensures Regs() == Opened(old(Regs()))
    {
      ConfigureMeasure();
      PwmGo(true);
      var _ := Ioctl(ForceHigh(Rhref), 0);
      var _ := Ioctl(ForceHigh(Heat), 0);
      var _ := Ioctl(MeasureOn, 0);
    }
  }

  function MeasureConfigured(r: Registers): Registers {
    r.(gpcon0 := r.gpcon0 - {0, 1}, gpoen0 := r.gpoen0 + {0}, gppul0 := r.gppul0 + {0})
  }

  function Opened(r: Registers): Registers {
    var configured := MeasureConfigured(r);
    var enabled := configured.(con0 := Go(configured.con0, true));
    Step(Step(Step(enabled, ForceHigh(Rhref), 0), ForceHigh(Heat), 0), MeasureOn, 0)
  }
}
