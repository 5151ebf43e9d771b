/** The touchscreen driver around the sample loop: switching the device on and off from several sides. */
module TouchRuns {

  datatype Op = Disable | Enable | Suspend | Resume | SensorRead

  /** What the kernel sees of the device: nesting depth of the disabled interrupt, regulator use count. */
  datatype Line = Line(stopped: bool, irqDepth: int, regulator: int)

  /** Line state of a device that is off or on, with nobody holding the lock. */
  function Settled(off: bool): Line {
    if off then Line(true, 1, 0) else Line(false, 0, 1)
  }

  /** What each call asks for, counted from its name alone. */
  function Wanted(flags: (bool, bool), op: Op): (bool, bool) {
    match op
    case Disable => (true, flags.1)
    case Enable => (false, flags.1)
    case Suspend => (flags.0, true)
    case Resume => (flags.0, false)
    case SensorRead => flags
  }

  function WantedAfter(flags: (bool, bool), ops: seq<Op>): (bool, bool)
    decreases |ops|
  {
    if ops == [] then flags else Wanted(WantedAfter(flags, ops[..|ops| - 1]), ops[|ops| - 1])
  }

  class Power {
    var disabled: bool
    var suspended: bool
    var stopped: bool
    var irqDepth: int
    var regulator: int

    function State(): Line
      reads this
    {
      Line(stopped, irqDepth, regulator)
    }

    ghost predicate Valid()
      reads this
    {
      State() == Settled(disabled || suspended)
    }

    /** After probe the regulator is on and the interrupt enabled. */
    constructor ()
      ensures Valid() && !disabled && !suspended
    {
      disabled, suspended, stopped, irqDepth, regulator := false, false, false, 0, 1;
    }

    method Stop()
      modifies this`stopped, this`irqDepth
      ensures stopped == (old(stopped) || !(disabled || suspended))
      ensures irqDepth == old(irqDepth) + if disabled || suspended then 0 else 1
    {
      if !disabled && !suspended {
        stopped := true;
        irqDepth := irqDepth + 1;
      }
    }

    method Restart()
      modifies this`stopped, this`irqDepth
      ensures stopped == (old(stopped) && (disabled || suspended))
      ensures irqDepth == old(irqDepth) - if disabled || suspended then 0 else 1
    {
      if !disabled && !suspended {
        stopped := false;
        irqDepth := irqDepth - 1;
      }
    }

    method PowerDown()
      requires Valid() && !disabled && !suspended
      modifies this`stopped, this`irqDepth, this`regulator
      ensures State() == Settled(true)
    {
      Stop();
      regulator := regulator - 1;
    }

    method PowerUp()
      requires State() == Settled(true) && !disabled && !suspended
      modifies this`stopped, this`irqDepth, this`regulator
      ensures Valid()
    {
      regulator := regulator + 1;
      Restart();
    }

    method DisableDevice()
      requires Valid()
      modifies this
      ensures Valid() && disabled && suspended == old(suspended)
    {
      if !disabled {
        if !suspended {
          PowerDown();
        }
        disabled := true;
      }
    }

    method EnableDevice()
      requires Valid()
      modifies this
      ensures Valid() && !disabled && suspended == old(suspended)
    {
      if disabled {
        disabled := false;
        if !suspended {
          PowerUp();
        }
      }
    }

    method SuspendDevice()
      requires Valid()
      modifies this
      ensures Valid() && suspended && disabled == old(disabled)
    {
      if !suspended {
        if !disabled {
          PowerDown();
        }
        suspended := true;
      }
    }

    method ResumeDevice()
      requires Valid()
      modifies this
      ensures Valid() && !suspended && disabled == old(disabled)
    {
      if suspended {
        suspended := false;
        if !disabled {
          PowerUp();
        }
      }
    }

    /** A reading of a non-touch sensor keeps the interrupt thread off the bus meanwhile. */
    method ReadSensor()
      requires Valid()
      modifies this`stopped, this`irqDepth
      ensures Valid()
    {
      Stop();
      assert stopped && irqDepth == 1;
      Restart();
    }

    /** Any sequence of calls leaves interrupt depth, regulator count and stop flag a function of whether
        the device is disabled or suspended, and those follow the calls. */
    method RunOps(ops: seq<Op>)
      requires Valid()
      modifies this
      ensures Valid() && (disabled, suspended) == WantedAfter(old((disabled, suspended)), ops)
      ensures stopped == (disabled || suspended)
      ensures irqDepth == (if disabled || suspended then 1 else 0) && regulator == 1 - irqDepth
    {
      for i := 0 to |ops|
        invariant Valid() && (disabled, suspended) == WantedAfter(old((disabled, suspended)), ops[..i])
      {
        assert ops[..i + 1][..i] == ops[..i];
        match ops[i] {
          case Disable => DisableDevice();
          case Enable => EnableDevice();
          case Suspend => SuspendDevice();
          case Resume => ResumeDevice();
          case SensorRead => ReadSensor();
        }
      }
      assert ops[..|ops|] == ops;
    }
  }
}
