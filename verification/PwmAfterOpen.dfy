/** The registers of the PWM driver by number, after the device has been initialised
    and opened and any run of requests has followed. */
module PwmAfterOpen {
  import opened Pwm
  import opened PwmRuns

  function After(r: Registers, cs: seq<Ioctl>): Registers {
    Run(Opened(Initialised(r)), cs)
  }

  // ----- Pins -----

  /** Pin 2 of port 1 carries RHREF and pin 4 HEAT. Each is multiplexed to the PWM
      exactly when its last request was a PWM request. */
  ghost predicate MuxFollows(r: Registers, now: Registers, cs: seq<Ioctl>) {
    && now.gpcon * {4, 5} == (if LastIsPwm(Rhref, cs) then {4} else {})
    && now.gpcon * {8, 9} == (if LastIsPwm(Heat, cs) then {8} else {})
    && now.gpcon - {4, 5, 8, 9} == r.gpcon - {4, 5, 8, 9}
    && now.gpoen == r.gpoen + {2, 4}
  }

  /** Its output bit is at the level it was last forced to, high after opening. */
  ghost predicate LevelFollows(r: Registers, now: Registers, cs: seq<Ioctl>) {
    && (2 in now.out1 <==> Level(Rhref, cs, true))
    && (4 in now.out1 <==> Level(Heat, cs, true))
    && now.out1 - {2, 4} == r.out1 - {2, 4}
  }

  lemma MuxStep(r: Registers, now: Registers, cs: seq<Ioctl>)
    requires cs != [] && MuxFollows(r, now, cs[..|cs| - 1])
    ensures MuxFollows(r, Step(now, cs[|cs| - 1].cmd, cs[|cs| - 1].args), cs)
  {
  }

  lemma LevelStep(r: Registers, now: Registers, cs: seq<Ioctl>)
    requires cs != [] && LevelFollows(r, now, cs[..|cs| - 1])
    ensures LevelFollows(r, Step(now, cs[|cs| - 1].cmd, cs[|cs| - 1].args), cs)
  {
  }

  lemma {:induction false} PinsAfterOpen(r: Registers, cs: seq<Ioctl>)
    ensures MuxFollows(r, After(r, cs), cs) && LevelFollows(r, After(r, cs), cs)
  {
    if cs != [] {
      var n := |cs| - 1;
      PinsAfterOpen(r, cs[..n]);
      MuxStep(r, After(r, cs[..n]), cs);
      LevelStep(r, After(r, cs[..n]), cs);
    }
  }

  // ----- Measuring -----

  /** Whether the last request about measuring, if there was one, switched it on. */
  predicate Measuring(cs: seq<Ioctl>) {
    if cs == [] then true
    else
      match cs[|cs| - 1].cmd
      case MeasureOn => true
      case MeasureOff => false
      case _ => Measuring(cs[..|cs| - 1])
  }

  /** Pin 0 of port 0 is a GPIO output with pull-up for good, high exactly while
      measuring is on; nothing else of port 0 changes. */
  lemma {:induction false} MeasuringAfterOpen(r: Registers, cs: seq<Ioctl>)
    ensures var now := After(r, cs);
      && (0 in now.out0 <==> Measuring(cs)) && now.out0 - {0} == r.out0 - {0}
      && now.gpcon0 == r.gpcon0 - {0, 1} && now.gpoen0 == r.gpoen0 + {0} && now.gppul0 == r.gppul0 + {0}
  {
    if cs != [] {
      MeasuringAfterOpen(r, cs[..|cs| - 1]);
    }
  }

  // ----- Control -----

  /** Whether a duty request in the run differed from the duty at its turn. */
  predicate DutyChanged(r: Registers, cs: seq<Ioctl>) {
    cs != [] &&
    var front, c := cs[..|cs| - 1], cs[|cs| - 1];
    var now := After(r, front);
    || DutyChanged(r, front)
    || (c.cmd == Duty(Rhref) && c.Arg() != now.rhref.com1)
    || (c.cmd == Duty(Heat) && c.Arg() != now.heat.com1)
  }

  /** The control registers hold the enable bit 0, and bit 3, the request to load the
      compare registers, exactly from the first change of a duty on. */
  lemma {:induction false} ControlAfterOpen(r: Registers, cs: seq<Ioctl>)
    ensures var now := After(r, cs);
      now.con0 == (if DutyChanged(r, cs) then {0, 3} else {0}) && now.con1 == {}
  {
    if cs != [] {
      ControlAfterOpen(r, cs[..|cs| - 1]);
    }
  }

  // ----- Pairs -----

  /** RHREF moves the first pair and HEAT the second; the third is never touched. */
  lemma PairsAfterOpen(r: Registers, cs: seq<Ioctl>)
    ensures var now := After(r, cs);
      && (Sound(r.rhref) ==> Sound(now.rhref) && TimingOf(now.rhref) == AskedAll(TimingOf(r.rhref), Rhref, cs))
      && (Sound(r.heat) ==> Sound(now.heat) && TimingOf(now.heat) == AskedAll(TimingOf(r.heat), Heat, cs))
      && now.spare == r.spare
  {
    var start := Opened(Initialised(r));
    assert start.rhref == r.rhref && start.heat == r.heat && start.spare == r.spare;
    if Sound(r.rhref) { RunRefines(start, Rhref, cs); }
    if Sound(r.heat) { RunRefines(start, Heat, cs); }
    SpareStays(start, cs);
  }

  lemma {:induction false} SpareStays(r: Registers, cs: seq<Ioctl>)
    ensures Run(r, cs).spare == r.spare
  {
    if cs != [] {
      SpareStays(r, cs[..|cs| - 1]);
    }
  }
}
