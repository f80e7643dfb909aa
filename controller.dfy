/** The page's handlers as methods that update its tables in place
    (src/app/page.tsx:19-88, 221-224). Each method is proved to move the
    tables exactly as the matching transition of `Machine` does, so every
    fact proved there (bounds, monotone holds, idempotent release, the
    leaked interval) holds of the object too. */
module Page {
  import opened Progress
  import opened Machine

  class Controller {
    var progress: map<string, real>
    var holding: map<string, bool>
    /** intervalRefs.current: the stored handle per animal, or null. */
    var intervalRefs: map<string, Option<nat>>
    /** The intervals the host still fires, by handle. */
    var scheduled: map<nat, Interval>
    var nextHandle: nat
    var clock: int

    /** The tables as one value. */
    function Snapshot(): State
      reads this
    {
      State(progress, holding, intervalRefs, scheduled, nextHandle, clock)
    }

    ghost predicate Valid()
      reads this
    {
      Machine.Valid(Snapshot())
    }

    /** The initial `useState`/`useRef` values (src/app/page.tsx:19-33). */
    constructor (now: int)
      ensures Snapshot() == Init(now) && Valid()
    {
      progress := map k | k in Animals :: 0.0;
      holding := map k | k in Animals :: false;
      intervalRefs := map k | k in Animals :: None;
      scheduled := map[];
      nextHandle := 0;
      clock := now;
    }

    /** startTransformation (src/app/page.tsx:38-59), as written. */
    method StartTransformation(animal: string, now: int)
      requires Valid() && animal in Animals && clock <= now
      modifies this
      ensures Snapshot() == Start(old(Snapshot()), animal, now) && Valid()
    {
      if progress[animal] >= Full {
        return;
      }
      holding := holding[animal := true];
      var startProgress := progress[animal];
      var handle := nextHandle;
      nextHandle := nextHandle + 1;
      scheduled := scheduled[handle := Interval(animal, now, startProgress)];
      intervalRefs := intervalRefs[animal := Some(handle)];
      clock := now;
    }

    /** stopTransformation (src/app/page.tsx:61-67). */
    method StopTransformation(animal: string)
      requires Valid() && animal in Animals
      modifies this
      ensures Snapshot() == Stop(old(Snapshot()), animal) && Valid()
    {
      var interval := intervalRefs[animal];
      if interval.Some? {
        scheduled := scheduled - {interval.value};
        intervalRefs := intervalRefs[animal := None];
      }
      holding := holding[animal := false];
    }

    /** One firing of the interval `handle` at time `now`: the callback of
        src/app/page.tsx:46-58. */
    method Fire(handle: nat, now: int)
      requires Valid() && handle in scheduled && clock <= now
      modifies this
      ensures Snapshot() == Tick(old(Snapshot()), handle, now) && Valid()
    {
      var iv := scheduled[handle];
      var elapsed := (now - iv.startTime) as real;
      NewProgressInRange(iv.startProgress, elapsed);
      var newProgress := NewProgress(iv.startProgress, elapsed);
      clock := now;
      progress := progress[iv.animal := newProgress];
      if newProgress >= Full {
        StopTransformation(iv.animal);
      }
    }

    /** The Reset button's onClick (src/app/page.tsx:221-224). */
    method ResetClick(animal: string)
      requires Valid() && animal in Animals
      modifies this
      ensures Snapshot() == Reset(old(Snapshot()), animal) && Valid()
    {
      progress := progress[animal := 0.0];
      holding := holding[animal := false];
    }

    /** The unmount cleanup (src/app/page.tsx:82-88): clear the interval of
        every stored handle, one table entry at a time. */
    method Unmount()
      requires Valid()
      modifies this
      ensures Snapshot() == Cleanup(old(Snapshot()))
    {
      var pending := intervalRefs.Keys;
      while pending != {}
        invariant pending <= intervalRefs.Keys
        invariant scheduled == old(scheduled) - StoredHandles(intervalRefs, intervalRefs.Keys - pending)
        invariant progress == old(progress) && holding == old(holding) && intervalRefs == old(intervalRefs)
        invariant nextHandle == old(nextHandle) && clock == old(clock)
        decreases pending
      {
        var animal :| animal in pending;
        var interval := intervalRefs[animal];
        ghost var done := intervalRefs.Keys - pending;
        if interval.Some? {
          assert StoredHandles(intervalRefs, done + {animal})
              == StoredHandles(intervalRefs, done) + {interval.value};
          scheduled := scheduled - {interval.value};
        } else {
          assert StoredHandles(intervalRefs, done + {animal}) == StoredHandles(intervalRefs, done);
        }
        pending := pending - {animal};
        assert intervalRefs.Keys - pending == done + {animal};
      }
    }

    /** startTransformation with the stored interval cleared first. */
    method StartTransformationCancelling(animal: string, now: int)
      requires Valid() && animal in Animals && clock <= now
      modifies this
      ensures Snapshot() == StartCancelling(old(Snapshot()), animal, now) && Valid()
    {
      if progress[animal] >= Full {
        return;
      }
      StopTransformation(animal);
      StartTransformation(animal, now);
    }
  }

  /** Drives one page through two one-second holds of the Cat with a release
      in between, and returns the Cat's progress: 75, not 100. */
  method TwoShortHoldsOnThePage() returns (catProgress: real)
    ensures catProgress == 75.0
  {
    var page := new Controller(0);
    page.StartTransformation("Cat", 0);
    assert page.scheduled[0] == Interval("Cat", 0, 0.0);
    page.Fire(0, 16);
    assert page.progress["Cat"] == NewProgress(0.0, 16.0) < Full;
    page.Fire(0, 1000);
    assert page.progress["Cat"] == NewProgress(0.0, 1000.0) == 50.0;
    page.StopTransformation("Cat");
    assert page.progress["Cat"] == 50.0 && page.nextHandle == 1 && page.clock == 1000;
    ghost var released := page.Snapshot();
    assert !IsComplete(released, "Cat");
    page.StartTransformation("Cat", 5000);
    assert page.Snapshot() == Start(released, "Cat", 5000);
    assert page.scheduled == released.scheduled[1 := Interval("Cat", 5000, 50.0)];
    page.Fire(1, 6000);
    assert page.progress["Cat"] == NewProgress(50.0, 1000.0) == 75.0;
    catProgress := page.progress["Cat"];
  }
}
