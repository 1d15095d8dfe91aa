/**
 * The arm/trip protocol of the high-fidelity driver: API callers, watchdog goroutines, the mutex,
 * the tripped flag and the kernel device, as atomic steps in any interleaving.
 */
module HifiProtocol {
  import opened Bytes

  // ----- the kernel side -----

  const MODE_OFF: byte := 0
  const MODE_LINUX: byte := 1

  function CtlCode(deviceType: nat, fn: nat, access: nat): nat {
    deviceType * 0x1_0000 + access * 0x4000 + fn * 4
  }

  const IOCTL_ARM: nat := CtlCode(0x12, 0x800, 2)
  const IOCTL_DISARM: nat := CtlCode(0x12, 0x801, 2)

  /** FilterDeviceIoControl on the driver's mode: ARM takes the first input byte, if there is one. */
  function DeviceIoControl(mode: byte, code: nat, input: seq<byte>): byte {
    if code == IOCTL_ARM then (if |input| >= 1 then input[0] else MODE_LINUX)
    else if code == IOCTL_DISARM then MODE_OFF
    else mode
  }

  /** FilterDispatch on IRP_MJ_CLOSE: the handle going away disarms. */
  function DeviceClose(mode: byte): byte {
    MODE_OFF
  }

  // ----- who is where -----

  /** The disarming critical section, shared by Disable/Close and by the watchdog's trip. */
  datatype Stage = Take | Disarm | CloseHandle | Clear | Unlock

  /** Where an API caller stands; wd says whether the profile wants a watchdog. */
  datatype Caller =
    | Idle
    | ArmWait(wd: bool)     // about to lock
    | ArmCheck(wd: bool)    // locked; reads b.hifi
    | ArmTripped(wd: bool)  // reads the tripped flag
    | ArmOpen(wd: bool)     // opens the device
    | ArmSend(wd: bool)     // sends ARM on the new handle
    | ArmFail               // ARM failed: closes the handle again
    | ArmStore(wd: bool)    // stores the handle in b.hifi
    | ArmWatch(wd: bool)    // starts the watchdog
    | ArmUnlock
    | DisWait
    | DisIn(stage: Stage, dog: Option<nat>)
    | DisStop(w: nat)       // unlocked; closes the watchdog's stop channel
    | DisJoin(w: nat)       // waits for the watchdog to return

  datatype Phase = Probing | Raise | TripWait | TripIn(stage: Stage) | Gone(byTrip: bool)

  /** A watchdog goroutine: its failure counter, and every probe result so far (true = reachable). */
  datatype Dog = Dog(fails: nat, stopped: bool, phase: Phase, probes: seq<bool>)

  datatype Holder = Free | HeldBy(caller: nat) | HeldByDog(dog: nat)

  /**
   * What the threads share: b.hifi (set or nil), b.hifiWd, the tripped flag, the open control
   * handles of this process (the driver's only client) and the driver's mode. tripDone remembers
   * that some trip critical section has finished.
   */
  datatype Shared = Shared(hifi: bool, hifiWd: Option<nat>, tripped: bool, tripDone: bool, handles: nat, mode: byte)

  datatype State = State(callers: seq<Caller>, dogs: seq<Dog>, lock: Holder, sh: Shared, crashed: bool)

  predicate Init(s: State) {
    && (forall i :: 0 <= i < |s.callers| ==> s.callers[i].Idle?)
    && s.dogs == [] && s.lock.Free? && s.sh == Shared(false, None, false, false, 0, MODE_OFF) && !s.crashed
  }

  /** One atomic step; ok is the outcome of a call that may fail. */
  datatype Action =
    | StartEnable(i: nat, wd: bool)
    | StartDisable(i: nat)
    | StepCaller(i: nat, ok: bool)
    | Probe(w: nat, reachable: bool)
    | StepDog(w: nat, ok: bool)
    | Crash

  /** A caller that waits for the mutex or for a watchdog to return. */
  predicate Blocked(s: State, c: Caller) {
    match c
    case Idle => true
    case ArmWait(_) => !s.lock.Free?
    case DisWait => !s.lock.Free?
    case DisStop(w) => w >= |s.dogs|
    case DisJoin(w) => w >= |s.dogs| || !s.dogs[w].phase.Gone?
    case _ => false
  }

  predicate BlockedDog(s: State, d: Dog) {
    match d.phase
    case Probing => !d.stopped
    case TripWait => !s.lock.Free?
    case Gone(_) => true
    case _ => false
  }

  predicate Enabled(s: State, a: Action) {
    && !s.crashed
    && match a
       case StartEnable(i, _) => i < |s.callers| && s.callers[i].Idle?
       case StartDisable(i) => i < |s.callers| && s.callers[i].Idle?
       case StepCaller(i, _) => i < |s.callers| && !Blocked(s, s.callers[i])
       case Probe(w, _) => w < |s.dogs| && s.dogs[w].phase.Probing?
       case StepDog(w, _) => w < |s.dogs| && !BlockedDog(s, s.dogs[w])
       case Crash => true
  }

  /** Inside a critical section of hifiMu. */
  predicate Locked(c: Caller) {
    c.ArmCheck? || c.ArmTripped? || c.ArmOpen? || c.ArmSend? || c.ArmFail? || c.ArmStore? || c.ArmWatch? ||
    c.ArmUnlock? || c.DisIn?
  }

  /** Closing the process's handle, as CloseHandle does. */
  function CloseOne(sh: Shared): Shared {
    sh.(handles := if sh.handles > 0 then sh.handles - 1 else 0, mode := DeviceClose(sh.mode))
  }

  /** One step of the disarming section. */
  function DisarmStep(sh: Shared, stage: Stage, ok: bool): Shared {
    match stage
    case Take => sh.(hifiWd := None)
    case Disarm => if ok then sh.(mode := DeviceIoControl(sh.mode, IOCTL_DISARM, [])) else sh
    case CloseHandle => CloseOne(sh)
    case Clear => sh.(hifi := false)
    case Unlock => sh
  }

  function NextStage(sh: Shared, stage: Stage): Stage {
    match stage
    case Take => if sh.hifi then Disarm else Unlock
    case Disarm => CloseHandle
    case CloseHandle => Clear
    case Clear => Unlock
    case Unlock => Unlock
  }

  /** One step of a caller; newDog is the number a new watchdog would get. */
  function CallerStep(sh: Shared, c: Caller, ok: bool, newDog: nat): (Shared, Caller)
    requires !c.Idle?
  {
    match c
    case ArmWait(wd) => (sh, ArmCheck(wd))
    case ArmCheck(wd) => (sh, if sh.hifi then ArmUnlock else ArmTripped(wd))
    case ArmTripped(wd) => (sh, if sh.tripped then ArmUnlock else ArmOpen(wd))
    case ArmOpen(wd) => if ok then (sh.(handles := sh.handles + 1), ArmSend(wd)) else (sh, ArmUnlock)
    case ArmSend(wd) =>
      if ok then (sh.(mode := DeviceIoControl(sh.mode, IOCTL_ARM, [MODE_LINUX])), ArmStore(wd)) else (sh, ArmFail)
    case ArmFail => (CloseOne(sh), ArmUnlock)
    case ArmStore(wd) => (sh.(hifi := true), ArmWatch(wd))
    case ArmWatch(wd) =>
      // ok: a probe target was found; without one b.hifiWd becomes nil
      (if !wd then sh else sh.(hifiWd := if ok then Some(newDog) else None), ArmUnlock)
    case ArmUnlock => (sh, Idle)
    case DisWait => (sh, DisIn(Take, None))
    case DisIn(stage, dog) =>
      var held := if stage.Take? then sh.hifiWd else dog;
      (DisarmStep(sh, stage, ok),
       if !stage.Unlock? then DisIn(NextStage(sh, stage), held)
       else if held.Some? then DisStop(held.value) else Idle)
    case DisStop(w) => (sh, DisJoin(w))
    case DisJoin(w) => (sh, Idle)
  }

  /** One step of a watchdog that is not probing. */
  function DogStep(sh: Shared, phase: Phase, ok: bool): (Shared, Phase) {
    match phase
    case Probing => (sh, Gone(false))
    case Raise => (sh.(tripped := true), TripWait)
    case TripWait => (sh, TripIn(Take))
    case TripIn(stage) =>
      if stage.Unlock? then (sh.(tripDone := true), Gone(true))
      else (DisarmStep(sh, stage, ok), TripIn(NextStage(sh, stage)))
    case Gone(t) => (sh, Gone(t))
  }

  /** A probe: a reply resets the counter, the third failure in a row raises the trip. */
  function DoProbe(d: Dog, reachable: bool): Dog {
    var fails := if reachable then 0 else d.fails + 1;
    d.(fails := fails, probes := d.probes + [reachable], phase := if fails >= 3 then Raise else d.phase)
  }

  /** The mutex when a thread steps from one side of a critical section's border to the other. */
  function LockAfter(lock: Holder, before: bool, after: bool, me: Holder): Holder {
    if before == after then lock else if after then me else Free
  }

  function DogsAfter(s: State, c: Caller, ok: bool): seq<Dog> {
    if c.ArmWatch? && c.wd && ok then s.dogs + [Dog(0, false, Probing, [])]
    else if c.DisStop? && c.w < |s.dogs| then s.dogs[c.w := s.dogs[c.w].(stopped := true)]
    else s.dogs
  }

  function DoCaller(s: State, i: nat, ok: bool): State
    requires Enabled(s, StepCaller(i, ok))
  {
    var c := s.callers[i];
    var (sh, c') := CallerStep(s.sh, c, ok, |s.dogs|);
    s.(sh := sh, callers := s.callers[i := c'], dogs := DogsAfter(s, c, ok),
       lock := LockAfter(s.lock, Locked(c), Locked(c'), HeldBy(i)))
  }

  function DoDog(s: State, w: nat, ok: bool): State
    requires Enabled(s, StepDog(w, ok))
  {
    var d := s.dogs[w];
    var (sh, ph) := DogStep(s.sh, d.phase, ok);
    s.(sh := sh, dogs := s.dogs[w := d.(phase := ph)],
       lock := LockAfter(s.lock, d.phase.TripIn?, ph.TripIn?, HeldByDog(w)))
  }

  /** The process dies: the system closes its handles, which disarms. */
  function DoCrash(s: State): State {
    s.(sh := s.sh.(handles := 0, mode := if s.sh.handles > 0 then DeviceClose(s.sh.mode) else s.sh.mode), crashed := true)
  }

  function Do(s: State, a: Action): State
    requires Enabled(s, a)
  {
    match a
    case StartEnable(i, wd) => s.(callers := s.callers[i := ArmWait(wd)])
    case StartDisable(i) => s.(callers := s.callers[i := DisWait])
    case StepCaller(i, ok) => DoCaller(s, i, ok)
    case Probe(w, reachable) => s.(dogs := s.dogs[w := DoProbe(s.dogs[w], reachable)])
    case StepDog(w, ok) => DoDog(s, w, ok)
    case Crash => DoCrash(s)
  }

  // ----- what every step keeps -----

  /** The lock is held exactly by the thread that is inside a critical section. */
  predicate Mutex(s: State) {
    && (forall i :: 0 <= i < |s.callers| ==> (Locked(s.callers[i]) <==> s.lock == HeldBy(i)))
    && (forall w :: 0 <= w < |s.dogs| ==> (s.dogs[w].phase.TripIn? <==> s.lock == HeldByDog(w)))
    && (s.lock.HeldBy? ==> s.lock.caller < |s.callers|)
    && (s.lock.HeldByDog? ==> s.lock.dog < |s.dogs|)
  }

  /** Nothing is in flight: armed exactly if b.hifi is set, and then on its one open handle. */
  predicate Settled(sh: Shared) {
    && sh.mode == (if sh.hifi then MODE_LINUX else MODE_OFF)
    && sh.handles == (if sh.hifi then 1 else 0)
  }

  predicate StageInv(sh: Shared, stage: Stage) {
    match stage
    case Take => Settled(sh)
    case Disarm => Settled(sh) && sh.hifi
    case CloseHandle => sh.hifi && sh.handles == 1 && sh.mode in {MODE_OFF, MODE_LINUX}
    case Clear => sh.hifi && sh.handles == 0 && sh.mode == MODE_OFF
    case Unlock => Settled(sh) && !sh.hifi
  }

  /** The driver as a caller inside its critical section finds it. */
  predicate CallerInv(sh: Shared, c: Caller) {
    match c
    case ArmTripped(_) => Settled(sh) && !sh.hifi
    case ArmOpen(_) => Settled(sh) && !sh.hifi
    case ArmSend(_) => !sh.hifi && sh.handles == 1 && sh.mode == MODE_OFF
    case ArmFail => !sh.hifi && sh.handles == 1 && sh.mode == MODE_OFF
    case ArmStore(_) => !sh.hifi && sh.handles == 1 && sh.mode == MODE_LINUX
    case ArmWatch(_) => Settled(sh) && sh.hifi
    case DisIn(stage, _) => StageInv(sh, stage)
    case _ => Settled(sh)
  }

  predicate DriverInv(s: State) {
    match s.lock
    case Free => Settled(s.sh)
    case HeldBy(i) => i < |s.callers| && CallerInv(s.sh, s.callers[i])
    case HeldByDog(w) => w < |s.dogs| && s.dogs[w].phase.TripIn? && StageInv(s.sh, s.dogs[w].phase.stage)
  }

  /** A caller past the check of the tripped flag. */
  predicate Arming(c: Caller) {
    c.ArmOpen? || c.ArmSend? || c.ArmFail? || c.ArmStore? || c.ArmWatch?
  }

  predicate Tripping(ph: Phase) {
    ph.TripWait? || ph.TripIn?
  }

  predicate TripInv(s: State) {
    && (forall w :: 0 <= w < |s.dogs| && Tripping(s.dogs[w].phase) ==> s.sh.tripped)
    && (s.sh.tripDone ==> s.sh.tripped && !s.sh.hifi)
    && (s.sh.tripDone ==> forall i :: 0 <= i < |s.callers| ==> !Arming(s.callers[i]))
  }

  /** Watchdogs that are stopped or joined exist, and a joined one was stopped. */
  predicate StopInvAt(dogs: seq<Dog>, c: Caller) {
    match c
    case DisIn(_, dog) => dog.Some? ==> dog.value < |dogs|
    case DisStop(w) => w < |dogs|
    case DisJoin(w) => w < |dogs| && dogs[w].stopped
    case _ => true
  }

  predicate StopInv(s: State) {
    && (s.sh.hifiWd.Some? ==> s.sh.hifiWd.value < |s.dogs|)
    && forall i :: 0 <= i < |s.callers| ==> StopInvAt(s.dogs, s.callers[i])
  }

  /** The failures a probe history ends with. */
  function Trailing(p: seq<bool>): nat {
    if p == [] || p[|p| - 1] then 0 else Trailing(p[..|p| - 1]) + 1
  }

  /** Three failed probes in a row somewhere in the history. */
  predicate RunAt(p: seq<bool>, i: nat) {
    i + 2 < |p| && !p[i] && !p[i + 1] && !p[i + 2]
  }

  ghost predicate HasRun(p: seq<bool>) {
    exists i: nat :: RunAt(p, i)
  }

  /** The history ends with its first run of three failures. */
  ghost predicate FirstRun(p: seq<bool>) {
    |p| >= 3 && HasRun(p) && !HasRun(p[..|p| - 1])
  }

  ghost predicate DogInv(d: Dog) {
    && d.fails == Trailing(d.probes)
    && match d.phase
       case Probing => !HasRun(d.probes)
       case Gone(byTrip) => if byTrip then FirstRun(d.probes) else !HasRun(d.probes)
       case _ => FirstRun(d.probes)
  }

  ghost predicate Inv(s: State) {
    && (s.crashed ==> s.sh.mode == MODE_OFF && s.sh.handles == 0)
    && (!s.crashed ==> Mutex(s) && DriverInv(s) && TripInv(s) && StopInv(s))
    && forall w :: 0 <= w < |s.dogs| ==> DogInv(s.dogs[w])
  }

  lemma {:induction false} TrailingRun(p: seq<bool>)
    ensures Trailing(p) <= |p|
    ensures forall k :: |p| - Trailing(p) <= k < |p| ==> !p[k]
    ensures Trailing(p) < |p| ==> p[|p| - 1 - Trailing(p)]
  {
    if p != [] && !p[|p| - 1] {
      TrailingRun(p[..|p| - 1]);
    }
  }

  /** One more probe: a run appears exactly when the counter reaches three. */
  lemma RunGrows(p: seq<bool>, reachable: bool)
    requires !HasRun(p)
    ensures HasRun(p + [reachable]) <==> Trailing(p + [reachable]) >= 3
  {
    var q := p + [reachable];
    TrailingRun(q);
    if Trailing(q) >= 3 {
      assert RunAt(q, |q| - 3);
    } else if i: nat :| RunAt(q, i) {
      if i + 2 < |p| {
        assert RunAt(p, i);
      }
      assert i == |q| - 3;
    }
  }

  /** The counter is the length of the trailing run, and the watchdog raises at its first run of three. */
  lemma ProbeKeeps(d: Dog, reachable: bool)
    requires DogInv(d) && d.phase.Probing?
    ensures DogInv(DoProbe(d, reachable))
  {
    var q := d.probes + [reachable];
    RunGrows(d.probes, reachable);
    assert q[..|q| - 1] == d.probes;
    assert Trailing(q) == if reachable then 0 else Trailing(d.probes) + 1;
    TrailingRun(q);
    hide HasRun;
  }

  /** One step of a caller on the shared state alone. */
  lemma CallerStepKeeps(sh: Shared, c: Caller, ok: bool, newDog: nat)
    requires !c.Idle? && CallerInv(sh, c)
    ensures var (sh', c') := CallerStep(sh, c, ok, newDog);
            CallerInv(sh', c') && (Locked(c) && !Locked(c') ==> Settled(sh'))
  {
  }

  /** Callers never touch the trip flags, and arm only if they read the flag unset. */
  lemma CallerStepTrip(sh: Shared, c: Caller, ok: bool, newDog: nat)
    requires !c.Idle?
    ensures var (sh', c') := CallerStep(sh, c, ok, newDog);
            && sh'.tripped == sh.tripped && sh'.tripDone == sh.tripDone
            && (!Locked(c) ==> sh' == sh)
            && (Arming(c') ==> Arming(c) || !sh.tripped)
            && (sh'.hifi && !sh.hifi ==> Arming(c))
  {
  }

  lemma DogStepKeeps(sh: Shared, ph: Phase, ok: bool)
    requires ph.TripIn? ==> StageInv(sh, ph.stage)
    requires !ph.TripIn? ==> Settled(sh)
    ensures var (sh', ph') := DogStep(sh, ph, ok);
            && (if ph'.TripIn? then StageInv(sh', ph'.stage) else Settled(sh'))
            && (Tripping(ph') ==> Tripping(ph) || sh'.tripped)
            && (sh.tripped ==> sh'.tripped) && (sh'.hifi ==> sh.hifi)
            && (sh'.tripDone && !sh.tripDone ==> ph.TripIn? && !sh'.hifi)
            && (sh.tripDone ==> sh'.tripDone)
  {
  }

  lemma NewDog()
    ensures DogInv(Dog(0, false, Probing, []))
  {
  }

  /** What a caller's step can do to the watchdogs: start one, or mark one stopped. */
  lemma DogsAfterKeeps(s: State, c: Caller, ok: bool)
    requires forall w :: 0 <= w < |s.dogs| ==> DogInv(s.dogs[w])
    ensures var d := DogsAfter(s, c, ok);
            && |d| >= |s.dogs|
            && (forall w :: 0 <= w < |s.dogs| ==> d[w].phase == s.dogs[w].phase && (s.dogs[w].stopped ==> d[w].stopped))
            && (forall w :: |s.dogs| <= w < |d| ==> d[w].phase.Probing?)
            && (forall w :: 0 <= w < |d| ==> DogInv(d[w]))
            && (c.DisStop? && c.w < |s.dogs| ==> d[c.w].stopped)
            && (c.ArmWatch? && c.wd && ok ==> |d| == |s.dogs| + 1)
  {
    NewDog();
    hide Trailing, HasRun, FirstRun;
  }

  lemma LockMoves(s: State, t: State, i: nat)
    requires Mutex(s) && i < |s.callers| && |t.dogs| >= |s.dogs|
    requires |t.callers| == |s.callers| && t.callers == s.callers[i := t.callers[i]]
    requires t.lock == LockAfter(s.lock, Locked(s.callers[i]), Locked(t.callers[i]), HeldBy(i))
    requires Locked(t.callers[i]) && !Locked(s.callers[i]) ==> s.lock.Free?
    requires forall w :: 0 <= w < |s.dogs| ==> t.dogs[w].phase == s.dogs[w].phase
    requires forall w :: |s.dogs| <= w < |t.dogs| ==> t.dogs[w].phase.Probing?
    ensures Mutex(t)
  {
    hide Locked;
  }

  lemma DogLockMoves(s: State, t: State, w: nat)
    requires Mutex(s) && w < |s.dogs|
    requires t.callers == s.callers && |t.dogs| == |s.dogs| && t.dogs == s.dogs[w := t.dogs[w]]
    requires t.lock == LockAfter(s.lock, s.dogs[w].phase.TripIn?, t.dogs[w].phase.TripIn?, HeldByDog(w))
    requires t.dogs[w].phase.TripIn? && !s.dogs[w].phase.TripIn? ==> s.lock.Free?
    ensures Mutex(t)
  {
    hide Locked;
  }

  /** A caller enters its critical section only through the free mutex. */
  lemma CallerAcquires(s: State, i: nat, ok: bool)
    requires Enabled(s, StepCaller(i, ok))
    ensures Locked(DoCaller(s, i, ok).callers[i]) && !Locked(s.callers[i]) ==> s.lock.Free?
  {
    hide DogsAfter, DisarmStep, DeviceIoControl;
  }

  /** A caller that is about to step finds the driver as its place demands. */
  lemma DriverOf(s: State, i: nat)
    requires Mutex(s) && DriverInv(s) && i < |s.callers| && !Blocked(s, s.callers[i])
    ensures Locked(s.callers[i]) || s.lock.Free? ==> CallerInv(s.sh, s.callers[i])
  {
  }

  lemma CallerKeepsDriver(s: State, i: nat, ok: bool)
    requires Inv(s) && Enabled(s, StepCaller(i, ok))
    ensures DriverInv(DoCaller(s, i, ok))
  {
    var t, c := DoCaller(s, i, ok), s.callers[i];
    CallerAcquires(s, i, ok);
    DriverOf(s, i);
    DogsAfterKeeps(s, c, ok);
    if Locked(c) || s.lock.Free? {
      CallerStepKeeps(s.sh, c, ok, |s.dogs|);
    } else {
      IdleStepKeeps(s.sh, c, ok, |s.dogs|);
    }
    hide DogInv, TripInv, StopInv, CallerInv, StageInv, DogsAfter, CallerStep, Settled;
  }

  lemma CallerKeepsTrip(s: State, i: nat, ok: bool)
    requires Inv(s) && Enabled(s, StepCaller(i, ok))
    ensures TripInv(DoCaller(s, i, ok))
  {
    DogsAfterKeeps(s, s.callers[i], ok);
    CallerStepTrip(s.sh, s.callers[i], ok, |s.dogs|);
    hide DogInv, DriverInv, StopInv, Mutex, DogsAfter, CallerStep, Arming;
  }

  lemma StopStep(s: State, c: Caller, ok: bool)
    requires !c.Idle? && StopInvAt(s.dogs, c) && (s.sh.hifiWd.Some? ==> s.sh.hifiWd.value < |s.dogs|)
    ensures var (sh, c') := CallerStep(s.sh, c, ok, |s.dogs|);
            && StopInvAt(DogsAfter(s, c, ok), c')
            && (sh.hifiWd.Some? ==> sh.hifiWd.value < |DogsAfter(s, c, ok)|)
  {
    hide DeviceIoControl;
  }

  lemma StopGrows(a: seq<Dog>, b: seq<Dog>, c: Caller)
    requires StopInvAt(a, c) && |b| >= |a|
    requires forall w :: 0 <= w < |a| && a[w].stopped ==> b[w].stopped
    ensures StopInvAt(b, c)
  {
  }

  lemma CallerKeepsStop(s: State, i: nat, ok: bool)
    requires Inv(s) && Enabled(s, StepCaller(i, ok))
    ensures StopInv(DoCaller(s, i, ok))
  {
    var t := DoCaller(s, i, ok);
    DogsAfterKeeps(s, s.callers[i], ok);
    StopStep(s, s.callers[i], ok);
    forall j | 0 <= j < |s.callers|
      ensures StopInvAt(t.dogs, t.callers[j])
    {
      if j != i {
        StopGrows(s.dogs, t.dogs, s.callers[j]);
      }
    }
    hide DogInv, DriverInv, TripInv, Mutex, DogsAfter, CallerStep, StopInvAt;
  }

  lemma CallerKeeps(s: State, i: nat, ok: bool)
    requires Inv(s) && Enabled(s, StepCaller(i, ok))
    ensures Inv(DoCaller(s, i, ok))
  {
    CallerAcquires(s, i, ok);
    DogsAfterKeeps(s, s.callers[i], ok);
    LockMoves(s, DoCaller(s, i, ok), i);
    CallerKeepsDriver(s, i, ok);
    CallerKeepsTrip(s, i, ok);
    CallerKeepsStop(s, i, ok);
    hide Mutex, DriverInv, TripInv, StopInv, DogInv, DogsAfter, CallerStep;
  }

  lemma DogKeepsDriver(s: State, w: nat, ok: bool)
    requires Inv(s) && Enabled(s, StepDog(w, ok))
    ensures Mutex(DoDog(s, w, ok)) && DriverInv(DoDog(s, w, ok))
  {
    var d := s.dogs[w];
    DogLockMoves(s, DoDog(s, w, ok), w);
    if d.phase.TripIn? || s.lock.Free? {
      DogStepKeeps(s.sh, d.phase, ok);
    }
    hide DogInv, TripInv, StopInv, CallerInv, StageInv, Settled, DisarmStep, NextStage, Locked;
  }

  lemma DogKeepsTrip(s: State, w: nat, ok: bool)
    requires Inv(s) && Enabled(s, StepDog(w, ok))
    ensures TripInv(DoDog(s, w, ok))
  {
    DogStepFlags(s.sh, s.dogs[w].phase, ok);
    if s.dogs[w].phase.TripIn? {
      TripDoneQuiet(s, w);
    }
    hide DogInv, DriverInv, StopInv, Mutex, DogStep, Arming;
  }

  lemma DogStepFlags(sh: Shared, ph: Phase, ok: bool)
    ensures var (sh', ph') := DogStep(sh, ph, ok);
            && (Tripping(ph') ==> Tripping(ph) || sh'.tripped)
            && (sh.tripped ==> sh'.tripped) && (sh'.hifi ==> sh.hifi)
            && (sh'.tripDone && !sh.tripDone ==> ph == TripIn(Unlock))
            && (sh.tripDone ==> sh'.tripDone)
  {
  }

  /** While a watchdog is in its critical section no caller is arming, and at its end b.hifi is nil. */
  lemma TripDoneQuiet(s: State, w: nat)
    requires Mutex(s) && DriverInv(s) && w < |s.dogs| && s.dogs[w].phase.TripIn?
    ensures forall i :: 0 <= i < |s.callers| ==> !Arming(s.callers[i])
    ensures s.dogs[w].phase.stage.Unlock? ==> !s.sh.hifi
  {
  }

  lemma DogKeepsRest(s: State, w: nat, ok: bool)
    requires Inv(s) && Enabled(s, StepDog(w, ok))
    ensures StopInv(DoDog(s, w, ok))
    ensures forall v :: 0 <= v < |s.dogs| ==> DogInv(DoDog(s, w, ok).dogs[v])
  {
    var t := DoDog(s, w, ok);
    forall j | 0 <= j < |s.callers|
      ensures StopInvAt(t.dogs, t.callers[j])
    {
      StopGrows(s.dogs, t.dogs, s.callers[j]);
    }
    hide DriverInv, TripInv, DeviceIoControl, Mutex, HasRun, Trailing, FirstRun, StopInvAt;
  }

  lemma DogKeeps(s: State, w: nat, ok: bool)
    requires Inv(s) && Enabled(s, StepDog(w, ok))
    ensures Inv(DoDog(s, w, ok))
  {
    DogKeepsDriver(s, w, ok);
    DogKeepsTrip(s, w, ok);
    DogKeepsRest(s, w, ok);
    hide Mutex, DriverInv, TripInv, StopInv, DogInv, DogStep;
  }

  lemma StartKeeps(s: State, i: nat, c: Caller)
    requires Inv(s) && !s.crashed && i < |s.callers| && s.callers[i].Idle? && (c.ArmWait? || c.DisWait?)
    ensures Inv(s.(callers := s.callers[i := c]))
  {
    hide DogInv, Settled, StageInv;
  }

  lemma ProbeStepKeeps(s: State, w: nat, reachable: bool)
    requires Inv(s) && Enabled(s, Probe(w, reachable))
    ensures Inv(Do(s, Probe(w, reachable)))
  {
    var t := Do(s, Probe(w, reachable));
    ProbeKeeps(s.dogs[w], reachable);
    forall j | 0 <= j < |s.callers|
      ensures StopInvAt(t.dogs, t.callers[j])
    {
      StopGrows(s.dogs, t.dogs, s.callers[j]);
    }
    hide DogInv, Trailing, Settled, StageInv, CallerInv, StopInvAt, Locked;
  }

  /** Every step of every thread, and a crash, keep the invariant. */
  lemma StepKeeps(s: State, a: Action)
    requires Inv(s) && Enabled(s, a)
    ensures Inv(Do(s, a))
  {
    match a
    case StartEnable(i, wd) => StartKeeps(s, i, ArmWait(wd));
    case StartDisable(i) => StartKeeps(s, i, DisWait);
    case StepCaller(i, ok) => CallerKeeps(s, i, ok);
    case Probe(w, reachable) => ProbeStepKeeps(s, w, reachable);
    case StepDog(w, ok) => DogKeeps(s, w, ok);
    case Crash => CrashKeeps(s);
  }

  /** With one handle at most, a dead process leaves the driver off. */
  lemma CrashKeeps(s: State)
    requires Inv(s) && !s.crashed
    ensures Inv(DoCrash(s))
  {
    ArmedNeedsHandle(s);
    hide DogInv, Mutex, DriverInv, TripInv, StopInv;
  }

  /** In every reachable state the driver is off unless a control handle is open. */
  lemma ArmedNeedsHandle(s: State)
    requires Inv(s)
    ensures s.sh.mode != MODE_OFF ==> s.sh.handles > 0
  {
    hide DogInv, TripInv, StopInv;
  }

  /** A caller outside the critical sections changes nothing shared and takes no lock that is held. */
  lemma IdleStepKeeps(sh: Shared, c: Caller, ok: bool, newDog: nat)
    requires !c.Idle? && !Locked(c)
    ensures CallerStep(sh, c, ok, newDog).0 == sh
  {
  }

  // ----- whole runs -----

  /** The state after a sequence of steps, if every one of them was enabled. */
  function Exec(s: State, acts: seq<Action>): Option<State>
    decreases |acts|
  {
    if acts == [] then Some(s)
    else if Enabled(s, acts[0]) then Exec(Do(s, acts[0]), acts[1..])
    else None
  }

  lemma {:induction false} RunKeeps(s: State, acts: seq<Action>)
    requires Inv(s) && Exec(s, acts).Some?
    ensures Inv(Exec(s, acts).value)
    ensures s.sh.tripDone ==> Exec(s, acts).value.sh.tripDone
    decreases |acts|
  {
    if acts != [] {
      StepKeeps(s, acts[0]);
      if s.sh.tripDone {
        TripDoneStays(s, acts[0]);
      }
      hide Inv, Do, Enabled;
      RunKeeps(Do(s, acts[0]), acts[1..]);
    }
  }

  lemma TripDoneStays(s: State, a: Action)
    requires Enabled(s, a) && s.sh.tripDone
    ensures Do(s, a).sh.tripDone
  {
    match a
    case StepCaller(i, ok) => CallerStepTrip(s.sh, s.callers[i], ok, |s.dogs|);
    case StepDog(w, ok) => DogStepFlags(s.sh, s.dogs[w].phase, ok);
    case _ =>
  }

  lemma InitInv(s: State)
    requires Init(s)
    ensures Inv(s)
  {
  }

  /**
   * Whatever callers, watchdogs and a crash do in whatever order: while the mutex is free the
   * driver's mode is LINUX exactly if b.hifi is set, and the driver is never on without an open
   * control handle.
   */
  lemma ArmedExactlyWhenHeld(s: State, acts: seq<Action>)
    requires Init(s) && Exec(s, acts).Some?
    ensures var t := Exec(s, acts).value;
            && (t.sh.mode != MODE_OFF ==> t.sh.handles > 0)
            && (!t.crashed && t.lock.Free? ==> (t.sh.mode == MODE_LINUX <==> t.sh.hifi))
            && (t.crashed ==> t.sh.mode == MODE_OFF)
  {
    InitInv(s);
    RunKeeps(s, acts);
    ArmedNeedsHandle(Exec(s, acts).value);
  }

  /** A finished trip leaves the driver off and no caller on its way to arming. */
  lemma TripDoneOff(s: State)
    requires Inv(s) && s.sh.tripDone
    ensures s.sh.mode == MODE_OFF
  {
    hide DogInv, StopInv;
  }

  /** Once a trip's critical section has finished, the driver is off in every later state. */
  lemma NeverRearmed(s: State, before: seq<Action>, later: seq<Action>)
    requires Init(s) && Exec(s, before).Some? && Exec(Exec(s, before).value, later).Some?
    requires Exec(s, before).value.sh.tripDone
    ensures Exec(Exec(s, before).value, later).value.sh.mode == MODE_OFF
  {
    InitInv(s);
    RunKeeps(s, before);
    RunKeeps(Exec(s, before).value, later);
    TripDoneOff(Exec(Exec(s, before).value, later).value);
  }

  /**
   * In every run a watchdog has raised the trip exactly if its probes contain three failures in a
   * row, and then its last probe is the one that completes the first such run.
   */
  lemma TripsAtFirstRun(s: State, acts: seq<Action>, w: nat)
    requires Init(s) && Exec(s, acts).Some? && w < |Exec(s, acts).value.dogs|
    ensures var d := Exec(s, acts).value.dogs[w];
            && (d.phase.Raise? || Tripping(d.phase) || d.phase == Gone(true) <==> HasRun(d.probes))
            && (HasRun(d.probes) ==> FirstRun(d.probes))
  {
    InitInv(s);
    RunKeeps(s, acts);
    hide Exec, Mutex, DriverInv, TripInv, StopInv, HasRun;
  }

  /** The step that some thread can take while caller i is waiting; ok is the outcome if its call may fail. */
  function Mover(s: State, i: nat, ok: bool): Action
    requires i < |s.callers|
  {
    var holder := if s.lock.HeldBy? then StepCaller(s.lock.caller, ok)
                  else if s.lock.HeldByDog? then StepDog(s.lock.dog, ok)
                  else StepCaller(i, ok);
    match s.callers[i]
    case DisJoin(w) =>
      if !Blocked(s, s.callers[i]) then StepCaller(i, ok)
      else if w < |s.dogs| && s.dogs[w].phase.TripWait? && !s.lock.Free? then holder
      else StepDog(w, ok)
    case _ => if !Blocked(s, s.callers[i]) then StepCaller(i, ok) else holder
  }

  /**
   * Stopping the watchdog outside the mutex cannot deadlock: while any Enable, Disable or Close has
   * not returned, some thread that is not waiting can take a step.
   */
  lemma NoDeadlock(s: State, acts: seq<Action>, i: nat, ok: bool)
    requires Init(s) && Exec(s, acts).Some?
    requires !Exec(s, acts).value.crashed && i < |Exec(s, acts).value.callers| && !Exec(s, acts).value.callers[i].Idle?
    ensures Enabled(Exec(s, acts).value, Mover(Exec(s, acts).value, i, ok))
  {
    InitInv(s);
    RunKeeps(s, acts);
    MoverEnabled(Exec(s, acts).value, i, ok);
  }

  lemma MoverEnabled(s: State, i: nat, ok: bool)
    requires Inv(s) && !s.crashed && i < |s.callers| && !s.callers[i].Idle?
    ensures Enabled(s, Mover(s, i, ok))
  {
    hide DogInv, DriverInv, TripInv;
  }

  // ----- every call returns -----

  function StageRank(stage: Stage): nat {
    match stage
    case Take => 5
    case Disarm => 4
    case CloseHandle => 3
    case Clear => 2
    case Unlock => 1
  }

  /** How many own steps a caller is from returning, at most. */
  function CallerRank(c: Caller): (n: nat)
    ensures n <= 8
  {
    match c
    case Idle => 0
    case ArmWait(_) => 8
    case ArmCheck(_) => 7
    case ArmTripped(_) => 6
    case ArmOpen(_) => 5
    case ArmSend(_) => 4
    case ArmFail => 2
    case ArmStore(_) => 3
    case ArmWatch(_) => 2
    case ArmUnlock => 1
    case DisWait => 8
    case DisIn(stage, _) => 2 + StageRank(stage)
    case DisStop(_) => 2
    case DisJoin(_) => 1
  }

  /** How many own steps a stopped watchdog is from returning, at most. */
  function DogRank(ph: Phase): (n: nat)
    ensures n <= 7
  {
    match ph
    case Probing => 1
    case Raise => 7
    case TripWait => 6
    case TripIn(stage) => StageRank(stage)
    case Gone(_) => 0
  }

  /** How many steps the mutex is from being free, at most. */
  function LockRank(s: State): (n: nat)
    ensures n <= 8
  {
    match s.lock
    case Free => 0
    case HeldBy(j) => if j < |s.callers| then CallerRank(s.callers[j]) else 0
    case HeldByDog(w) => if w < |s.dogs| then DogRank(s.dogs[w].phase) else 0
  }

  function AwaitedRank(s: State, c: Caller): (n: nat)
    ensures n <= 7
  {
    if c.DisJoin? && c.w < |s.dogs| then DogRank(s.dogs[c.w].phase) else 0
  }

  /** Own steps before those of the watchdog that is waited for, and these before those of the mutex's holder. */
  function Distance(s: State, i: nat): (n: nat)
    requires i < |s.callers|
    ensures n <= 878
  {
    100 * CallerRank(s.callers[i]) + 10 * AwaitedRank(s, s.callers[i]) + LockRank(s)
  }

  lemma CallerNearer(sh: Shared, c: Caller, ok: bool, newDog: nat)
    requires !c.Idle?
    ensures CallerRank(CallerStep(sh, c, ok, newDog).1) < CallerRank(c)
  {
  }

  lemma DogNearer(sh: Shared, ph: Phase, ok: bool)
    requires !ph.Gone?
    ensures DogRank(DogStep(sh, ph, ok).1) < DogRank(ph)
  {
  }

  /** A step of caller i itself. */
  lemma OwnStepNearer(s: State, i: nat, ok: bool)
    requires Enabled(s, StepCaller(i, ok)) && !s.callers[i].Idle?
    ensures Distance(DoCaller(s, i, ok), i) < Distance(s, i)
  {
    CallerNearer(s.sh, s.callers[i], ok, |s.dogs|);
    hide CallerStep, CallerRank, LockRank, AwaitedRank;
  }

  /** A step of another caller that holds the mutex. */
  lemma HolderNearer(s: State, i: nat, j: nat, ok: bool)
    requires Mutex(s) && StopInv(s) && i < |s.callers| && i != j && s.lock == HeldBy(j) && Enabled(s, StepCaller(j, ok))
    ensures Distance(DoCaller(s, j, ok), i) < Distance(s, i)
  {
    var t, c := DoCaller(s, j, ok), s.callers[j];
    assert Locked(c);
    CallerNearer(s.sh, c, ok, |s.dogs|);
    hide CallerStep, CallerRank, DogRank;
    assert forall w :: 0 <= w < |s.dogs| ==> t.dogs[w].phase == s.dogs[w].phase;
    assert StopInvAt(s.dogs, s.callers[i]);
  }

  /** A step of a watchdog that caller i waits for, or that holds the mutex. */
  lemma DogStepNearer(s: State, i: nat, w: nat, ok: bool)
    requires Mutex(s) && i < |s.callers| && Enabled(s, StepDog(w, ok))
    requires s.callers[i] == DisJoin(w) || s.lock == HeldByDog(w)
    ensures Distance(DoDog(s, w, ok), i) < Distance(s, i)
  {
    var t := DoDog(s, w, ok);
    DogNearer(s.sh, s.dogs[w].phase, ok);
    assert t.callers == s.callers;
    assert s.dogs[w].phase.TripIn? <==> s.lock == HeldByDog(w);
    hide DogRank, CallerRank;
  }

  /** Whatever its outcome, the step that can be taken brings the return of the call nearer. */
  lemma MoverNearer(s: State, i: nat, ok: bool)
    requires Inv(s) && !s.crashed && i < |s.callers| && !s.callers[i].Idle?
    ensures Enabled(s, Mover(s, i, ok))
    ensures Distance(Do(s, Mover(s, i, ok)), i) < Distance(s, i)
  {
    MoverEnabled(s, i, ok);
    hide DogInv, DriverInv, TripInv, Distance, Mutex, StopInv, DoCaller, DoDog;
    match Mover(s, i, ok) {
      case StepCaller(j, _) =>
        if j == i {
          OwnStepNearer(s, i, ok);
        } else {
          HolderNearer(s, i, j, ok);
        }
      case StepDog(w, _) => DogStepNearer(s, i, w, ok);
    }
  }

  /** The state after n of these steps, or as soon as the call has returned. */
  ghost function Served(s: State, i: nat, outcome: nat -> bool, n: nat): (t: State)
    requires Inv(s) && !s.crashed && i < |s.callers|
    ensures i < |t.callers|
    decreases n
  {
    if n == 0 || s.callers[i].Idle? then s
    else
      MoverEnabled(s, i, outcome(n));
      StepKeeps(s, Mover(s, i, outcome(n)));
      Served(Do(s, Mover(s, i, outcome(n))), i, outcome, n - 1)
  }

  lemma {:induction false} ServedReturns(s: State, i: nat, outcome: nat -> bool, n: nat)
    requires Inv(s) && !s.crashed && i < |s.callers| && n >= Distance(s, i)
    ensures Served(s, i, outcome, n).callers[i].Idle?
    decreases n
  {
    if !s.callers[i].Idle? {
      MoverNearer(s, i, outcome(n));
      StepKeeps(s, Mover(s, i, outcome(n)));
      hide Inv, Mover, Distance, Do, Enabled;
      ServedReturns(Do(s, Mover(s, i, outcome(n))), i, outcome, n - 1);
    }
  }

  /**
   * From every reachable state, so after whatever other threads did, some schedule of at most 878 steps of threads
   * that can move brings every Enable, Disable or Close to its return, whatever the outcomes of the calls they make.
   */
  lemma CallReturns(s: State, acts: seq<Action>, i: nat, outcome: nat -> bool)
    requires Init(s) && Exec(s, acts).Some? && !Exec(s, acts).value.crashed && i < |Exec(s, acts).value.callers|
    ensures Inv(Exec(s, acts).value)
    ensures Served(Exec(s, acts).value, i, outcome, 878).callers[i].Idle?
  {
    InitInv(s);
    RunKeeps(s, acts);
    hide Inv, Exec, Served;
    ServedReturns(Exec(s, acts).value, i, outcome, 878);
  }
}
