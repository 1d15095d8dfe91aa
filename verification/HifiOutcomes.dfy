/** What Enable, Disable and a trip achieve, beside what they keep. */
module HifiOutcomes {
  import opened Bytes
  import opened HifiProtocol

  /** The control codes as CTL_CODE builds them from the network device type, the functions and write access. */
  lemma ControlCodes()
    ensures IOCTL_ARM == 0x12A000 && IOCTL_DISARM == 0x12A004
  {
  }

  /** Arming takes the mode sent along, or LINUX without one; disarming and closing turn off; other codes do nothing. */
  lemma DeviceModes(mode: byte, input: seq<byte>, code: nat)
    ensures DeviceIoControl(mode, 0x12A000, input) == if input == [] then 1 else input[0]
    ensures DeviceIoControl(mode, 0x12A004, input) == 0 && DeviceClose(mode) == 0
    ensures code != 0x12A000 && code != 0x12A004 ==> DeviceIoControl(mode, code, input) == mode
  {
  }

  /** n steps of one caller, each of its calls with the same outcome. */
  function Own(i: nat, ok: bool, n: nat): seq<Action> {
    if n == 0 then [] else [StepCaller(i, ok)] + Own(i, ok, n - 1)
  }

  lemma ExecFirst(s: State, a: Action, rest: seq<Action>)
    requires Enabled(s, a)
    ensures Exec(s, [a] + rest) == Exec(Do(s, a), rest)
  {
    assert ([a] + rest)[1..] == rest;
  }

  /** One own step of a caller that is not waiting, on the shared state, its place, the mutex and the watchdogs. */
  lemma OwnStep(s: State, i: nat, ok: bool, n: nat)
    requires !s.crashed && i < |s.callers| && !Blocked(s, s.callers[i]) && n > 0
    ensures Exec(s, Own(i, ok, n)) == Exec(DoCaller(s, i, ok), Own(i, ok, n - 1))
    ensures var (sh, c) := CallerStep(s.sh, s.callers[i], ok, |s.dogs|);
            DoCaller(s, i, ok) ==
            State(s.callers[i := c], DogsAfter(s, s.callers[i], ok),
                  LockAfter(s.lock, Locked(s.callers[i]), Locked(c), HeldBy(i)), sh, false)
  {
    ExecFirst(s, StepCaller(i, ok), Own(i, ok, n - 1));
    hide CallerStep, Exec, DogsAfter;
  }

  // ----- Enable -----

  /**
   * From every reachable state in which the mutex is free, nothing is armed and no watchdog has tripped: an Enable whose
   * calls succeed returns with the driver in mode LINUX on its one handle, b.hifi set, and, if the profile wants one, a
   * new watchdog that probes.
   */
  lemma EnableArms(s: State, i: nat, wd: bool)
    requires Inv(s) && !s.crashed && s.lock.Free? && i < |s.callers| && s.callers[i].Idle?
    requires !s.sh.hifi && !s.sh.tripped
    ensures var r := Exec(s, [StartEnable(i, wd)] + Own(i, true, 8));
            && r.Some? && r.value.callers == s.callers && r.value.lock.Free? && !r.value.crashed
            && r.value.sh.mode == 1 && r.value.sh.hifi && r.value.sh.handles == 1 && !r.value.sh.tripped
            && r.value.sh.hifiWd == (if wd then Some(|s.dogs|) else s.sh.hifiWd)
            && r.value.dogs == s.dogs + if wd then [Dog(0, false, Probing, [])] else []
  {
    assert Settled(s.sh) && s.sh.handles == 0 && s.sh.mode == 0;
    ExecFirst(s, StartEnable(i, wd), Own(i, true, 8));
    var a := Do(s, StartEnable(i, wd));
    assert a == s.(callers := s.callers[i := ArmWait(wd)]);
    hide Inv, Exec, Own;
    EnableSteps(a, i, wd);
    assert a.callers[i := Idle] == s.callers;
  }

  lemma EnableSteps(a: State, i: nat, wd: bool)
    requires !a.crashed && a.lock.Free? && i < |a.callers| && a.callers[i] == ArmWait(wd)
    requires !a.sh.hifi && !a.sh.tripped && a.sh.handles == 0
    ensures Exec(a, Own(i, true, 8)) ==
            Some(State(a.callers[i := Idle], a.dogs + (if wd then [Dog(0, false, Probing, [])] else []), Free,
                       a.sh.(hifi := true, handles := 1, mode := 1, hifiWd := if wd then Some(|a.dogs|) else a.sh.hifiWd),
                       false))
  {
    hide Exec, Own, DoCaller;
    OwnStep(a, i, true, 8);
    var b := DoCaller(a, i, true);
    assert b == a.(callers := a.callers[i := ArmCheck(wd)], lock := HeldBy(i));
    OwnStep(b, i, true, 7);
    var c := DoCaller(b, i, true);
    assert c == b.(callers := a.callers[i := ArmTripped(wd)]);
    OwnStep(c, i, true, 6);
    var d := DoCaller(c, i, true);
    assert d == b.(callers := a.callers[i := ArmOpen(wd)]);
    ArmingSteps(d, i, wd);
    assert d.callers[i := Idle] == a.callers[i := Idle];
  }

  /** From the open call on. */
  lemma ArmingSteps(d: State, i: nat, wd: bool)
    requires !d.crashed && d.lock == HeldBy(i) && i < |d.callers| && d.callers[i] == ArmOpen(wd) && d.sh.handles == 0
    ensures Exec(d, Own(i, true, 5)) ==
            Some(State(d.callers[i := Idle], d.dogs + (if wd then [Dog(0, false, Probing, [])] else []), Free,
                       d.sh.(hifi := true, handles := 1, mode := 1, hifiWd := if wd then Some(|d.dogs|) else d.sh.hifiWd),
                       false))
  {
    hide Exec, Own, DoCaller;
    OwnStep(d, i, true, 5);
    var e := DoCaller(d, i, true);
    assert e == d.(callers := d.callers[i := ArmSend(wd)], sh := d.sh.(handles := 1));
    OwnStep(e, i, true, 4);
    var f := DoCaller(e, i, true);
    assert f == d.(callers := d.callers[i := ArmStore(wd)], sh := d.sh.(handles := 1, mode := 1));
    OwnStep(f, i, true, 3);
    var g := DoCaller(f, i, true);
    assert g == d.(callers := d.callers[i := ArmWatch(wd)], sh := d.sh.(handles := 1, mode := 1, hifi := true));
    WatchSteps(g, i, wd);
    assert g.callers[i := Idle] == d.callers[i := Idle];
  }

  lemma WatchSteps(g: State, i: nat, wd: bool)
    requires !g.crashed && g.lock == HeldBy(i) && i < |g.callers| && g.callers[i] == ArmWatch(wd)
    ensures Exec(g, Own(i, true, 2)) ==
            Some(State(g.callers[i := Idle], g.dogs + (if wd then [Dog(0, false, Probing, [])] else []), Free,
                       g.sh.(hifiWd := if wd then Some(|g.dogs|) else g.sh.hifiWd), false))
  {
    hide Exec, DoCaller;
    OwnStep(g, i, true, 2);
    var h := DoCaller(g, i, true);
    OwnStep(h, i, true, 1);
    var k := DoCaller(h, i, true);
    NoMore(k, i, true);
    assert k.callers == g.callers[i := Idle] && g.dogs + [] == g.dogs;
  }

  lemma NoMore(s: State, i: nat, ok: bool)
    ensures Exec(s, Own(i, ok, 0)) == Some(s)
  {
  }

  // ----- why an Enable may leave the driver off -----

  /** A call of caller i whose own steps all succeed ends its critical section armed, or with a trip raised. */
  predicate Succeeding(s: State, i: nat)
    requires i < |s.callers|
  {
    match s.callers[i]
    case ArmFail => false
    case ArmUnlock => s.sh.tripped || (s.sh.hifi && s.sh.mode == 1)
    case _ => true
  }

  /** What a thread does while caller i holds the mutex leaves the driver and b.hifi alone. */
  lemma ForeignStep(s: State, i: nat, a: Action)
    requires Inv(s) && Enabled(s, a) && i < |s.callers| && s.lock == HeldBy(i) && !a.Crash?
    requires !(a.StepCaller? && a.i == i)
    ensures var t := Do(s, a);
            && |t.callers| == |s.callers| && t.callers[i] == s.callers[i]
            && t.sh.hifi == s.sh.hifi && t.sh.mode == s.sh.mode && (s.sh.tripped ==> t.sh.tripped)
  {
    hide DogInv, DriverInv, TripInv, StopInv, DogsAfter;
    match a
    case StepCaller(j, ok) =>
      assert !Locked(s.callers[j]);
      CallerStepTrip(s.sh, s.callers[j], ok, |s.dogs|);
    case StepDog(w, ok) =>
      assert !s.dogs[w].phase.TripIn?;
    case _ =>
  }

  /** The caller's own step: it goes to its end unarmed only because b.hifi was set already or the flag was. */
  lemma OwnSuccess(s: State, i: nat)
    requires Inv(s) && Enabled(s, StepCaller(i, true)) && Succeeding(s, i)
    ensures Succeeding(DoCaller(s, i, true), i)
  {
    hide DogInv, TripInv, StopInv, DogsAfter;
  }

  lemma StepSucceeds(s: State, i: nat, a: Action)
    requires Inv(s) && Enabled(s, a) && i < |s.callers| && !a.Crash? && Succeeding(s, i)
    requires a.StepCaller? && a.i == i ==> a.ok
    ensures |Do(s, a).callers| == |s.callers| && Succeeding(Do(s, a), i)
  {
    if a.StepCaller? && a.i == i {
      OwnSuccess(s, i);
    } else if s.callers[i].ArmUnlock? {
      assert s.lock == HeldBy(i) by {
        hide DogInv, DriverInv, TripInv, StopInv;
      }
      ForeignStep(s, i, a);
    } else {
      OtherPlace(s, i, a);
    }
  }

  lemma OtherPlace(s: State, i: nat, a: Action)
    requires Enabled(s, a) && i < |s.callers| && !a.Crash? && !s.callers[i].ArmUnlock? && !s.callers[i].ArmFail?
    requires !(a.StepCaller? && a.i == i)
    ensures |Do(s, a).callers| == |s.callers| && Succeeding(Do(s, a), i)
  {
    hide CallerStep, DogStep, DogsAfter, DoProbe;
  }

  /**
   * In every run without a crash in which the calls that caller i makes succeed: wherever it ends the critical section of
   * an Enable, the driver is in mode LINUX and b.hifi set, unless a watchdog had raised its trip. So an Enable leaves the
   * driver off only because of a trip or a failed call.
   */
  lemma {:induction false} EnableFailsOnlyForTrips(s: State, acts: seq<Action>, i: nat)
    requires Inv(s) && Exec(s, acts).Some? && i < |s.callers| && Succeeding(s, i)
    requires forall k :: 0 <= k < |acts| ==> !acts[k].Crash? && (acts[k].StepCaller? && acts[k].i == i ==> acts[k].ok)
    ensures i < |Exec(s, acts).value.callers| && Succeeding(Exec(s, acts).value, i)
    decreases |acts|
  {
    if acts != [] {
      StepKeeps(s, acts[0]);
      StepSucceeds(s, i, acts[0]);
      hide Inv, Do, Enabled, Succeeding;
      EnableFailsOnlyForTrips(Do(s, acts[0]), acts[1..], i);
    }
  }

  // ----- Disable -----

  /**
   * A Disable or Close that finds the mutex free turns the driver off, whatever its calls say, forgets the handle and the
   * watchdog, and goes on to stop that watchdog, if there is one.
   */
  lemma DisableDisarms(s: State, i: nat, ok: bool)
    requires Inv(s) && !s.crashed && s.lock.Free? && i < |s.callers| && s.callers[i].Idle?
    ensures var r := Exec(s, [StartDisable(i)] + Own(i, ok, if s.sh.hifi then 6 else 3));
            && r.Some? && r.value.lock.Free? && !r.value.crashed && r.value.dogs == s.dogs
            && r.value.sh == s.sh.(hifi := false, hifiWd := None, handles := 0, mode := 0)
            && r.value.callers == s.callers[i := if s.sh.hifiWd.Some? then DisStop(s.sh.hifiWd.value) else Idle]
  {
    assert Settled(s.sh);
    var n := if s.sh.hifi then 6 else 3;
    ExecFirst(s, StartDisable(i), Own(i, ok, n));
    var a := Do(s, StartDisable(i));
    assert a == s.(callers := s.callers[i := DisWait]);
    hide Inv, Exec, Own, DoCaller;
    OwnStep(a, i, ok, n);
    var b := DoCaller(a, i, ok);
    assert b == a.(callers := s.callers[i := DisIn(Take, None)], lock := HeldBy(i));
    hide CallerStep, DogsAfter;
    TakeSteps(b, i, ok);
    var end := if s.sh.hifiWd.Some? then DisStop(s.sh.hifiWd.value) else Idle;
    assert b.callers[i := end] == s.callers[i := end];
  }

  lemma TakeSteps(b: State, i: nat, ok: bool)
    requires !b.crashed && b.lock == HeldBy(i) && i < |b.callers| && b.callers[i] == DisIn(Take, None)
    requires if b.sh.hifi then b.sh.handles == 1 else b.sh.handles == 0 && b.sh.mode == 0
    ensures var dog := b.sh.hifiWd;
            Exec(b, Own(i, ok, if b.sh.hifi then 5 else 2)) ==
            Some(State(b.callers[i := if dog.Some? then DisStop(dog.value) else Idle], b.dogs, Free,
                       b.sh.(hifi := false, hifiWd := None, handles := 0, mode := 0), false))
  {
    hide Exec, Own, DoCaller;
    OwnStep(b, i, ok, if b.sh.hifi then 5 else 2);
    var c := DoCaller(b, i, ok);
    var first := if b.sh.hifi then Disarm else Unlock;
    assert c == b.(callers := b.callers[i := DisIn(first, b.sh.hifiWd)], sh := b.sh.(hifiWd := None));
    hide CallerStep, DogsAfter;
    if b.sh.hifi {
      DisarmSteps(c, i, ok);
    } else {
      UnlockStep(c, i, ok);
    }
    var end := if b.sh.hifiWd.Some? then DisStop(b.sh.hifiWd.value) else Idle;
    assert c.callers[i := end] == b.callers[i := end];
  }

  lemma DisarmSteps(c: State, i: nat, ok: bool)
    requires !c.crashed && c.lock == HeldBy(i) && i < |c.callers|
    requires c.callers[i].DisIn? && c.callers[i].stage == Disarm && c.sh.handles == 1
    ensures var dog := c.callers[i].dog;
            Exec(c, Own(i, ok, 4)) ==
            Some(State(c.callers[i := if dog.Some? then DisStop(dog.value) else Idle], c.dogs, Free,
                       c.sh.(hifi := false, handles := 0, mode := 0), false))
  {
    hide Exec, Own, DoCaller;
    var dog := c.callers[i].dog;
    OwnStep(c, i, ok, 4);
    var d := DoCaller(c, i, ok);
    assert d.callers == c.callers[i := DisIn(CloseHandle, dog)] && d.sh.handles == 1;
    OwnStep(d, i, ok, 3);
    var e := DoCaller(d, i, ok);
    assert e.callers == c.callers[i := DisIn(Clear, dog)] && e.sh == c.sh.(handles := 0, mode := 0);
    OwnStep(e, i, ok, 2);
    var f := DoCaller(e, i, ok);
    assert f.callers == c.callers[i := DisIn(Unlock, dog)];
    UnlockStep(f, i, ok);
    var g := if dog.Some? then DisStop(dog.value) else Idle;
    assert f.callers[i := g] == c.callers[i := g];
  }

  lemma UnlockStep(f: State, i: nat, ok: bool)
    requires !f.crashed && f.lock == HeldBy(i) && i < |f.callers| && f.callers[i].DisIn? && f.callers[i].stage == Unlock
    ensures var dog := f.callers[i].dog;
            Exec(f, Own(i, ok, 1)) ==
            Some(f.(callers := f.callers[i := if dog.Some? then DisStop(dog.value) else Idle], lock := Free))
  {
    hide Exec, DoCaller;
    OwnStep(f, i, ok, 1);
    NoMore(DoCaller(f, i, ok), i, ok);
  }

  /** The watchdog that Disable stops ends without a trip, and Disable returns behind it. */
  lemma StopEnds(s: State, i: nat, w: nat, ok: bool)
    requires !s.crashed && i < |s.callers| && s.callers[i] == DisStop(w) && w < |s.dogs| && s.dogs[w].phase.Probing?
    ensures var r := Exec(s, [StepCaller(i, ok), StepDog(w, ok), StepCaller(i, ok)]);
            r == Some(s.(callers := s.callers[i := Idle],
                         dogs := s.dogs[w := s.dogs[w].(stopped := true, phase := Gone(false))]))
  {
    var x, y := StepCaller(i, ok), StepDog(w, ok);
    assert [x, y, x] == [x] + ([y] + ([x] + []));
    var a := Do(s, x);
    assert a == s.(callers := s.callers[i := DisJoin(w)], dogs := s.dogs[w := s.dogs[w].(stopped := true)]);
    ExecFirst(s, x, [y] + ([x] + []));
    var b := Do(a, y);
    assert b == a.(dogs := s.dogs[w := s.dogs[w].(stopped := true, phase := Gone(false))]);
    ExecFirst(a, y, [x] + []);
    assert Do(b, x) == b.(callers := s.callers[i := Idle]);
    ExecFirst(b, x, []);
    hide Do;
  }

  // ----- a trip -----

  function DogSteps(w: nat, ok: bool, n: nat): seq<Action> {
    if n == 0 then [] else [StepDog(w, ok)] + DogSteps(w, ok, n - 1)
  }

  lemma DogOwnStep(s: State, w: nat, ok: bool, n: nat)
    requires !s.crashed && w < |s.dogs| && !BlockedDog(s, s.dogs[w]) && n > 0
    ensures Exec(s, DogSteps(w, ok, n)) == Exec(DoDog(s, w, ok), DogSteps(w, ok, n - 1))
    ensures var (sh, ph) := DogStep(s.sh, s.dogs[w].phase, ok);
            DoDog(s, w, ok) ==
            State(s.callers, s.dogs[w := s.dogs[w].(phase := ph)],
                  LockAfter(s.lock, s.dogs[w].phase.TripIn?, ph.TripIn?, HeldByDog(w)), sh, false)
  {
    ExecFirst(s, StepDog(w, ok), DogSteps(w, ok, n - 1));
    hide DogStep, Exec;
  }

  /**
   * A watchdog that has raised its trip and finds the mutex free turns the driver off, whatever its calls say, forgets
   * the handle and itself, and ends; the flag that keeps Enable from arming again is set.
   */
  lemma TripDisarms(s: State, w: nat, ok: bool)
    requires Inv(s) && !s.crashed && s.lock.Free? && w < |s.dogs| && s.dogs[w].phase.Raise?
    ensures var r := Exec(s, DogSteps(w, ok, if s.sh.hifi then 7 else 4));
            r == Some(s.(dogs := s.dogs[w := s.dogs[w].(phase := Gone(true))],
                         sh := s.sh.(hifi := false, hifiWd := None, handles := 0, mode := 0, tripped := true, tripDone := true)))
  {
    assert Settled(s.sh);
    var n := if s.sh.hifi then 7 else 4;
    hide Inv, Exec, DogSteps, DoDog;
    DogOwnStep(s, w, ok, n);
    var a := DoDog(s, w, ok);
    assert a.dogs == s.dogs[w := s.dogs[w].(phase := TripWait)] && a.lock.Free? && a.sh == s.sh.(tripped := true);
    DogOwnStep(a, w, ok, n - 1);
    var b := DoDog(a, w, ok);
    assert b.dogs == s.dogs[w := s.dogs[w].(phase := TripIn(Take))] && b.sh == a.sh;
    hide DogStep;
    TripTakes(b, w, ok);
    assert b.dogs[w := b.dogs[w].(phase := Gone(true))] == s.dogs[w := s.dogs[w].(phase := Gone(true))];
  }

  lemma TripTakes(b: State, w: nat, ok: bool)
    requires !b.crashed && w < |b.dogs| && b.dogs[w].phase == TripIn(Take)
    requires if b.sh.hifi then b.sh.handles == 1 else b.sh.handles == 0 && b.sh.mode == 0
    ensures Exec(b, DogSteps(w, ok, if b.sh.hifi then 5 else 2)) ==
            Some(b.(dogs := b.dogs[w := b.dogs[w].(phase := Gone(true))], lock := Free,
                    sh := b.sh.(hifi := false, hifiWd := None, handles := 0, mode := 0, tripDone := true)))
  {
    hide Exec, DogSteps, DoDog;
    DogOwnStep(b, w, ok, if b.sh.hifi then 5 else 2);
    var c := DoDog(b, w, ok);
    var first := if b.sh.hifi then Disarm else Unlock;
    assert c.dogs == b.dogs[w := b.dogs[w].(phase := TripIn(first))] && c.sh == b.sh.(hifiWd := None);
    hide DogStep;
    if b.sh.hifi {
      TripSteps(c, w, ok);
    } else {
      TripEnds(c, w, ok);
    }
    assert c.dogs[w := c.dogs[w].(phase := Gone(true))] == b.dogs[w := b.dogs[w].(phase := Gone(true))];
  }

  lemma TripSteps(c: State, w: nat, ok: bool)
    requires !c.crashed && w < |c.dogs| && c.dogs[w].phase == TripIn(Disarm) && c.sh.handles == 1
    ensures Exec(c, DogSteps(w, ok, 4)) ==
            Some(c.(dogs := c.dogs[w := c.dogs[w].(phase := Gone(true))], lock := Free,
                    sh := c.sh.(hifi := false, handles := 0, mode := 0, tripDone := true)))
  {
    hide Exec, DogSteps, DoDog;
    DogOwnStep(c, w, ok, 4);
    var d := DoDog(c, w, ok);
    assert d.dogs == c.dogs[w := c.dogs[w].(phase := TripIn(CloseHandle))] && d.sh.handles == 1;
    DogOwnStep(d, w, ok, 3);
    var e := DoDog(d, w, ok);
    assert e.dogs == c.dogs[w := c.dogs[w].(phase := TripIn(Clear))] && e.sh == c.sh.(handles := 0, mode := 0);
    DogOwnStep(e, w, ok, 2);
    var f := DoDog(e, w, ok);
    assert f.dogs == c.dogs[w := c.dogs[w].(phase := TripIn(Unlock))];
    TripEnds(f, w, ok);
    assert f.dogs[w := c.dogs[w].(phase := Gone(true))] == c.dogs[w := c.dogs[w].(phase := Gone(true))];
  }

  lemma TripEnds(f: State, w: nat, ok: bool)
    requires !f.crashed && w < |f.dogs| && f.dogs[w].phase == TripIn(Unlock)
    ensures Exec(f, DogSteps(w, ok, 1)) ==
            Some(f.(dogs := f.dogs[w := f.dogs[w].(phase := Gone(true))], lock := Free, sh := f.sh.(tripDone := true)))
  {
    DogOwnStep(f, w, ok, 1);
  }
}
