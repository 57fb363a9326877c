/**
 The schedule that gives the remove-in-finally manager two simultaneous
 holders for one key, replayed against the reference-counted manager. There the
 first call's cleanup leaves the key stored, because the second call is still
 registered on its item, so the third call captures that same item and cannot
 take its lock while the second call holds it.
 */
module RaceContrast {
  import opened Calls
  import R = LockRegistry
  import N = NaiveRegistry

  /** `NaiveRegistry.RaceSchedule`, step for step, with the `finally` block being
      the reference-counted cleanup. */
  const Schedule: seq<R.Step> := [
    R.CallStep(1, Some("A"), Some(Returns(None)), NoLimit),
    R.AcquireStep(1),
    R.CallStep(2, Some("A"), Some(Returns(None)), NoLimit),
    R.ReleaseStep(1),
    R.UnregisterStep(1),
    R.AcquireStep(2),
    R.CallStep(3, Some("A"), Some(Returns(None)), NoLimit),
    R.AcquireStep(3)
  ]

  lemma RunOne(s: R.State, steps: seq<R.Step>, s1: R.State)
    requires R.Wf(s) && |steps| >= 1 && R.Apply(s, steps[0]) == Some(s1)
    ensures R.Run(s, steps) == R.Run(s1, steps[1..])
  {
  }

  /** After one step: call 1 registered on a new item 0 for "A". */
  const Registered: R.State := R.State(
    map["A" := 0], map[0 := R.Entry("A", 1, None)],
    map[1 := Active("A", 0, Never, Returns(None), Waiting)],
    1)

  /** After two steps: call 1 holds item 0. */
  const Held: R.State := R.State(
    map["A" := 0], map[0 := R.Entry("A", 1, Some(1))],
    map[1 := Active("A", 0, Never, Returns(None), Holding)],
    1)

  /** After three steps: call 2 registered on the same item and waits. */
  const Queued: R.State := R.State(
    map["A" := 0], map[0 := R.Entry("A", 2, Some(1))],
    map[1 := Active("A", 0, Never, Returns(None), Holding),
        2 := Active("A", 0, Never, Returns(None), Waiting)],
    1)

  /** After four steps: call 1 has released item 0. */
  const Released: R.State := R.State(
    map["A" := 0], map[0 := R.Entry("A", 2, None)],
    map[1 := Active("A", 0, Never, Returns(None), Leaving(Completed(Returns(None)))),
        2 := Active("A", 0, Never, Returns(None), Waiting)],
    1)

  /** After five steps: call 1's cleanup brought the counter to 1 and left "A" stored. */
  const Unregistered: R.State := R.State(
    map["A" := 0], map[0 := R.Entry("A", 1, None)],
    map[1 := Active("A", 0, Never, Returns(None), Done(Completed(Returns(None)))),
        2 := Active("A", 0, Never, Returns(None), Waiting)],
    1)

  /** After six steps: call 2 holds item 0. */
  const Handed: R.State := R.State(
    map["A" := 0], map[0 := R.Entry("A", 1, Some(2))],
    map[1 := Active("A", 0, Never, Returns(None), Done(Completed(Returns(None)))),
        2 := Active("A", 0, Never, Returns(None), Holding)],
    1)

  /** After seven steps: call 3 captured the same item 0, which call 2 still holds. */
  const Blocked: R.State := R.State(
    map["A" := 0], map[0 := R.Entry("A", 2, Some(2))],
    map[1 := Active("A", 0, Never, Returns(None), Done(Completed(Returns(None)))),
        2 := Active("A", 0, Never, Returns(None), Holding),
        3 := Active("A", 0, Never, Returns(None), Waiting)],
    1)

  lemma Step0()
    ensures R.Apply(R.Init, Schedule[0]) == Some(Registered)
  {
    var created := R.Init.(storage := map["A" := 0], entries := map[0 := R.Entry("A", 0, None)], nextEntry := 1);
    assert R.GetOrAdd(R.Init, "A") == (created, 0);
    assert created.entries[0 := R.Entry("A", 1, None)] == Registered.entries;
  }

  lemma Step1()
    ensures R.Wf(Registered) && R.Apply(Registered, Schedule[1]) == Some(Held)
  {
    assert Registered.entries[0 := R.Entry("A", 1, Some(1))] == Held.entries;
    assert Registered.callers[1 := Active("A", 0, Never, Returns(None), Holding)] == Held.callers;
  }

  lemma Step2()
    ensures R.Wf(Held) && R.Apply(Held, Schedule[2]) == Some(Queued)
  {
    assert R.GetOrAdd(Held, "A") == (Held, 0);
    assert Held.entries[0 := R.Entry("A", 2, Some(1))] == Queued.entries;
  }

  lemma Step3()
    ensures R.Wf(Queued) && R.Apply(Queued, Schedule[3]) == Some(Released)
  {
    assert Queued.entries[0 := R.Entry("A", 2, None)] == Released.entries;
    assert Queued.callers[1 := Active("A", 0, Never, Returns(None), Leaving(Completed(Returns(None))))] == Released.callers;
  }

  lemma Step4()
    ensures R.Wf(Released) && R.Apply(Released, Schedule[4]) == Some(Unregistered)
  {
    assert Released.entries[0 := R.Entry("A", 1, None)] == Unregistered.entries;
    assert Released.callers[1 := Active("A", 0, Never, Returns(None), Done(Completed(Returns(None))))] == Unregistered.callers;
  }

  lemma Step5()
    ensures R.Wf(Unregistered) && R.Apply(Unregistered, Schedule[5]) == Some(Handed)
  {
    assert Unregistered.entries[0 := R.Entry("A", 1, Some(2))] == Handed.entries;
    assert Unregistered.callers[2 := Active("A", 0, Never, Returns(None), Holding)] == Handed.callers;
  }

  lemma Step6()
    ensures R.Wf(Handed) && R.Apply(Handed, Schedule[6]) == Some(Blocked)
  {
    assert R.GetOrAdd(Handed, "A") == (Handed, 0);
    assert Handed.entries[0 := R.Entry("A", 2, Some(2))] == Blocked.entries;
  }

  /** The last step is not enabled: item 0's lock is held by call 2. */
  lemma Step7()
    ensures R.Wf(Blocked) && R.Apply(Blocked, Schedule[7]).None?
  {
  }

  lemma RunFirstHalf()
    ensures R.Run(R.Init, Schedule) == R.Run(Released, Schedule[4..])
  {
    Step0(); Step1(); Step2(); Step3();
    RunOne(R.Init, Schedule, Registered);
    RunOne(Registered, Schedule[1..], Held);
    RunOne(Held, Schedule[2..], Queued);
    RunOne(Queued, Schedule[3..], Released);
    assert Schedule[1..][1..] == Schedule[2..];
    assert Schedule[2..][1..] == Schedule[3..];
    assert Schedule[3..][1..] == Schedule[4..];
  }

  lemma RunSecondHalf()
    ensures R.Run(Released, Schedule[4..]) == R.Run(Blocked, Schedule[7..])
    ensures R.Run(Blocked, Schedule[7..]) == None
  {
    Step4(); Step5(); Step6(); Step7();
    RunOne(Released, Schedule[4..], Unregistered);
    RunOne(Unregistered, Schedule[5..], Handed);
    RunOne(Handed, Schedule[6..], Blocked);
    assert Schedule[4..][1..] == Schedule[5..];
    assert Schedule[5..][1..] == Schedule[6..];
    assert Schedule[6..][1..] == Schedule[7..];
    assert Schedule[7..][0] == Schedule[7];
  }

  /** Under reference counting the schedule cannot complete: after call 1's
      cleanup "A" still maps to the item call 2 registered on, call 3 captures
      that item, and its acquisition waits for call 2. The naive manager runs the
      same schedule to a state with two holders for "A". */
  lemma RefcountingPreventsRace()
    ensures R.Run(R.Init, Schedule) == None
    ensures R.Run(R.Init, Schedule) == R.Run(Blocked, [Schedule[7]])
    ensures Blocked.callers[3].handle == Blocked.callers[2].handle
    ensures Blocked.entries[Blocked.callers[3].handle].holder == Some(2)
    ensures N.Run(N.Init, N.RaceSchedule).Some? && !N.MutualExclusion(N.Run(N.Init, N.RaceSchedule).value)
  {
    RunFirstHalf();
    RunSecondHalf();
    assert Schedule[7..] == [Schedule[7]];
    N.RaceScheduleEnd();
  }
}
