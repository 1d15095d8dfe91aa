/** The control client of the driver and the watchdog's loop, as they change their own variables. */
module HifiControl {
  import opened Bytes
  import opened HifiProtocol

  /** The driver's global mode as its dispatch routines change it. */
  class Driver {
    var mode: byte

    constructor ()
      ensures mode == MODE_OFF
    {
      mode := MODE_OFF;
    }

    method Control(code: nat, input: seq<byte>)
      modifies this
      ensures mode == DeviceIoControl(old(mode), code, input)
    {
      if code == IOCTL_ARM {
        if |input| >= 1 {
          mode := input[0];
        } else {
          mode := MODE_LINUX;
        }
      } else if code == IOCTL_DISARM {
        mode := MODE_OFF;
      }
    }

    method HandleClosed()
      modifies this
      ensures mode == DeviceClose(old(mode))
    {
      mode := MODE_OFF;
    }
  }

  /** An open control handle, or the invalid one; each call succeeds or fails as the system says. */
  class Corrector {
    const driver: Driver
    var open: bool

    constructor (d: Driver)
      ensures driver == d && open
    {
      driver := d;
      open := true;
    }

    /** Through an invalid handle nothing is armed; through an open one exactly the requested mode is. */
    method Arm(linuxPersona: bool, works: bool) returns (ok: bool)
      modifies driver
      ensures ok == (open && works)
      ensures driver.mode == if !ok then old(driver.mode) else if linuxPersona then MODE_LINUX else MODE_OFF
    {
      if !open {
        return false;
      }
      var mode: byte := 0;
      if linuxPersona {
        mode := MODE_LINUX;
      }
      ok := works;
      if ok {
        driver.Control(IOCTL_ARM, [mode]);
      }
    }

    method Disarm(works: bool) returns (ok: bool)
      modifies driver
      ensures ok == (!open || works)
      ensures driver.mode == if open && works then MODE_OFF else old(driver.mode)
    {
      if !open {
        return true;
      }
      ok := works;
      if ok {
        driver.Control(IOCTL_DISARM, []);
      }
    }

    /** The handle is invalid afterwards even when closing it fails; the driver is off when it does not. */
    method Close(works: bool) returns (ok: bool)
      modifies this, driver
      ensures !open && ok == (!old(open) || works)
      ensures driver.mode == if old(open) && works then MODE_OFF else old(driver.mode)
    {
      if !open {
        return true;
      }
      ok := works;
      if ok {
        driver.HandleClosed();
      }
      open := false;
    }
  }

  /**
   * The watchdog's loop over the probes it gets to make before it is stopped. It trips exactly when there are three
   * failures in a row among them, and at the first such run: no later probe is made.
   */
  method Run(probes: seq<bool>) returns (tripped: bool, made: nat)
    ensures made <= |probes| && tripped == HasRun(probes)
    ensures tripped ==> FirstRun(probes[..made])
    ensures !tripped ==> made == |probes|
  {
    var fails := 0;
    made := 0;
    while made < |probes|
      invariant made <= |probes| && fails == Trailing(probes[..made]) && !HasRun(probes[..made])
    {
      ghost var before := probes[..made];
      RunGrows(before, probes[made]);
      assert probes[..made + 1] == before + [probes[made]];
      assert (before + [probes[made]])[..made] == before;
      TrailingRun(before + [probes[made]]);
      made := made + 1;
      if probes[made - 1] {
        fails := 0;
        continue;
      }
      fails := fails + 1;
      if fails >= 3 {
        PrefixRun(probes, made);
        return true, made;
      }
    }
    assert probes[..made] == probes;
    return false, made;
  }

  lemma PrefixRun(p: seq<bool>, n: nat)
    requires n <= |p| && HasRun(p[..n])
    ensures HasRun(p)
  {
    var i: nat :| RunAt(p[..n], i);
    assert RunAt(p, i);
  }
}
