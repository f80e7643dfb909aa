/** The per-animal "hold to transform" controller of src/app/page.tsx as pure
    transitions over one state value.

    The page keeps three tables keyed by animal name: `progress`,
    `isHolding` and `intervalRefs.current` (the handle of the running
    `setInterval`, or null). Besides them the host keeps the intervals it is
    still firing; each interval's callback captured the animal, the hold's
    start time and the progress at the start of the hold. Time is the
    argument `now` (milliseconds, as `Date.now()` returns), and the state
    remembers the latest time seen so that clocks never run backwards. */
module Machine {
  import opened Progress

  datatype Option<T> = None | Some(value: T)

  /** The animal names, the keys of every table (src/app/page.tsx:12-33). */
  const Animals: set<string> := {"Cat", "Dog", "Rabbit"}

  /** A running interval: what its callback captured when the hold started. */
  datatype Interval = Interval(animal: string, startTime: int, startProgress: real)

  datatype State = State(
    progress: map<string, real>,        // progress per animal, a percentage
    holding: map<string, bool>,         // isHolding
    handles: map<string, Option<nat>>,  // intervalRefs.current: handle or null
    scheduled: map<nat, Interval>,      // intervals the host still fires, by handle
    nextHandle: nat,                    // handle the next setInterval returns
    clock: int)                         // latest time observed

  /** The well-formedness every reachable state has, whatever the input. */
  ghost predicate Valid(s: State)
  {
    && s.progress.Keys == Animals
    && s.holding.Keys == Animals
    && s.handles.Keys == Animals
    && (forall k :: k in s.progress ==> 0.0 <= s.progress[k] <= Full)
    && (forall k :: k in s.handles && s.handles[k].Some? ==>
          s.handles[k].value in s.scheduled && s.scheduled[s.handles[k].value].animal == k)
    && (forall h :: h in s.scheduled ==> ValidInterval(s, h))
  }

  ghost predicate ValidInterval(s: State, h: nat)
    requires h in s.scheduled
  {
    var iv := s.scheduled[h];
    && h < s.nextHandle
    && iv.animal in Animals
    && 0.0 <= iv.startProgress < Full
    && iv.startTime <= s.clock
  }

  /** isComplete (src/app/page.tsx:109). */
  predicate IsComplete(s: State, k: string)
    requires k in s.progress
  {
    s.progress[k] >= Full
  }

  /** The page as first rendered: every animal at 0, not held, no handle. */
  function Init(now: int): (s: State)
    ensures Valid(s)
    ensures forall k :: k in s.progress ==> s.progress[k] == 0.0 && !s.holding[k]
    ensures forall k :: k in s.handles ==> s.handles[k] == None
    ensures s.scheduled == map[]
  {
    State(map k | k in Animals :: 0.0, map k | k in Animals :: false,
          map k | k in Animals :: None, map[], 0, now)
  }

  /** Both tables of `k` that stopTransformation clears, and nothing else, may differ. */
  ghost predicate OthersUnchanged(s: State, t: State, k: string)
  {
    && k in t.progress && k in t.holding && k in t.handles
    && t.progress == s.progress[k := t.progress[k]]
    && t.holding == s.holding[k := t.holding[k]]
    && t.handles == s.handles[k := t.handles[k]]
  }

  /** startTransformation (src/app/page.tsx:38-59), as written: nothing
      happens for a completed animal; otherwise the animal is held and a new
      interval starts from the current progress. A handle already stored for
      the animal is overwritten without clearing its interval. */
  function Start(s: State, k: string, now: int): (t: State)
    requires Valid(s) && k in Animals && s.clock <= now
    ensures Valid(t)
    ensures IsComplete(s, k) ==> t == s
    ensures !IsComplete(s, k) ==>
      && t.holding[k]
      && t.handles[k] == Some(s.nextHandle)
      && s.nextHandle !in s.scheduled
      && t.scheduled == s.scheduled[s.nextHandle := Interval(k, now, s.progress[k])]
      && t.progress == s.progress
      && t.nextHandle == s.nextHandle + 1
      && t.clock == now
    ensures OthersUnchanged(s, t, k)
  {
    if IsComplete(s, k) then s
    else
      var h := s.nextHandle;
      s.(holding := s.holding[k := true],
         handles := s.handles[k := Some(h)],
         scheduled := s.scheduled[h := Interval(k, now, s.progress[k])],
         nextHandle := h + 1,
         clock := now)
  }

  /** stopTransformation (src/app/page.tsx:61-67): clear the stored interval,
      if any, forget its handle, and mark the animal as not held. */
  function Stop(s: State, k: string): (t: State)
    requires Valid(s) && k in Animals
    ensures Valid(t)
    ensures !t.holding[k] && t.handles[k] == None
    ensures t.scheduled == if s.handles[k].Some? then s.scheduled - {s.handles[k].value}
                           else s.scheduled
    ensures t.progress == s.progress && t.nextHandle == s.nextHandle && t.clock == s.clock
    ensures OthersUnchanged(s, t, k)
  {
    var cleared :=
      if s.handles[k].Some?
      then s.(scheduled := s.scheduled - {s.handles[k].value}, handles := s.handles[k := None])
      else s;
    cleared.(holding := cleared.holding[k := false])
  }

  /** One firing of interval `h` at time `now` (src/app/page.tsx:46-58): the
      interval's animal gets the tick value of its hold, and a tick that
      reaches 100 stops the animal. */
  function Tick(s: State, h: nat, now: int): (t: State)
    requires Valid(s) && h in s.scheduled && s.clock <= now
    ensures Valid(t)
    ensures var iv := s.scheduled[h];
      && t.progress == s.progress[iv.animal := NewProgress(iv.startProgress, (now - iv.startTime) as real)]
      && (IsComplete(t, iv.animal) ==>
            && !t.holding[iv.animal] && t.handles[iv.animal] == None
            && t.scheduled == if s.handles[iv.animal].Some?
                              then s.scheduled - {s.handles[iv.animal].value}
                              else s.scheduled)
      && (!IsComplete(t, iv.animal) ==> t.holding == s.holding && t.handles == s.handles && t.scheduled == s.scheduled)
      && OthersUnchanged(s, t, iv.animal)
      && s.scheduled[h].startProgress <= t.progress[iv.animal]
    ensures t.nextHandle == s.nextHandle && t.clock == now
  {
    var iv := s.scheduled[h];
    var elapsed := (now - iv.startTime) as real;
    NewProgressInRange(iv.startProgress, elapsed);
    var p := NewProgress(iv.startProgress, elapsed);
    var ticked := s.(progress := s.progress[iv.animal := p], clock := now);
    if p >= Full then Stop(ticked, iv.animal) else ticked
  }

  /** The Reset button's click handler (src/app/page.tsx:221-224): progress
      back to 0 and not held. The stored handle is left as it is. */
  function Reset(s: State, k: string): (t: State)
    requires Valid(s) && k in Animals
    ensures Valid(t)
    ensures t.progress[k] == 0.0 && !t.holding[k]
    ensures t.handles == s.handles && t.scheduled == s.scheduled
    ensures t.nextHandle == s.nextHandle && t.clock == s.clock
    ensures OthersUnchanged(s, t, k)
  {
    s.(progress := s.progress[k := 0.0], holding := s.holding[k := false])
  }

  /** Handles stored in the table for the animals of `ks`. */
  function StoredHandles(handles: map<string, Option<nat>>, ks: set<string>): set<nat>
  {
    set k | k in ks && k in handles && handles[k].Some? :: handles[k].value
  }

  /** The unmount cleanup (src/app/page.tsx:82-88): every stored handle's
      interval is cleared; the tables themselves are left as they are. */
  function Cleanup(s: State): (t: State)
    requires Valid(s)
    ensures forall k :: k in s.handles && s.handles[k].Some? ==> s.handles[k].value !in t.scheduled
    ensures forall h :: h in t.scheduled ==> h in s.scheduled && t.scheduled[h] == s.scheduled[h]
    ensures forall h :: h in s.scheduled && h !in StoredHandles(s.handles, s.handles.Keys) ==>
              h in t.scheduled && t.scheduled[h] == s.scheduled[h]
    ensures t.progress == s.progress && t.holding == s.holding && t.handles == s.handles
    ensures t.nextHandle == s.nextHandle && t.clock == s.clock
  {
    s.(scheduled := s.scheduled - StoredHandles(s.handles, s.handles.Keys))
  }

  // ---------------------------------------------------------------------
  // The controller's intended invariant: an animal is held exactly when it
  // has a running interval, every running interval is the one stored for
  // its animal, and a held animal's progress lies between the progress its
  // hold started at and the tick value of that hold at the latest time.

  ghost predicate OnTrack(s: State, k: string)
    requires Valid(s) && k in Animals && s.handles[k].Some?
  {
    var iv := s.scheduled[s.handles[k].value];
    && iv.startProgress <= s.progress[k] < Full
    && s.progress[k] <= NewProgress(iv.startProgress, (s.clock - iv.startTime) as real)
  }

  ghost predicate Tidy(s: State)
  {
    && Valid(s)
    && (forall h :: h in s.scheduled ==> s.handles[s.scheduled[h].animal] == Some(h))
    && (forall k :: k in s.holding ==> (s.holding[k] <==> s.handles[k].Some?))
    && (forall k :: k in s.handles && s.handles[k].Some? ==> OnTrack(s, k))
  }

  lemma InitTidy(now: int)
    ensures Tidy(Init(now))
  {
  }

  /** Pressing a released animal keeps the controller tidy. */
  lemma StartKeepsTidy(s: State, k: string, now: int)
    requires Tidy(s) && k in Animals && s.clock <= now && !s.holding[k]
    ensures Tidy(Start(s, k, now))
  {
    var t := Start(s, k, now);
    if !IsComplete(s, k) {
      forall h | h in t.scheduled ensures t.handles[t.scheduled[h].animal] == Some(h) {
        if h != s.nextHandle {
          assert s.handles[s.scheduled[h].animal] == Some(h);
        }
      }
      forall j | j in t.handles && t.handles[j].Some? ensures OnTrack(t, j) {
        if j != k {
          assert OnTrack(s, j);
          StartKeepsOtherOnTrack(s, k, now, j);
        } else {
          StartOnTrack(s, k, now);
        }
      }
    }
  }

  lemma StartKeepsOtherOnTrack(s: State, k: string, now: int, j: string)
    requires Valid(s) && k in Animals && s.clock <= now && !IsComplete(s, k)
    requires j in Animals && j != k && s.handles[j].Some? && OnTrack(s, j)
    ensures Start(s, k, now).handles[j] == s.handles[j] && OnTrack(Start(s, k, now), j)
  {
    var t := Start(s, k, now);
    var iv := s.scheduled[s.handles[j].value];
    assert t.scheduled[t.handles[j].value] == iv && t.progress[j] == s.progress[j];
    StillOnTrack(iv, s.progress[j], s.clock, now);
  }

  lemma StartOnTrack(s: State, k: string, now: int)
    requires Valid(s) && k in Animals && s.clock <= now && !IsComplete(s, k)
    ensures OnTrack(Start(s, k, now), k)
  {
    var t := Start(s, k, now);
    assert t.scheduled[t.handles[k].value] == Interval(k, now, s.progress[k]);
    assert t.progress[k] == s.progress[k] && t.clock == now;
    NewProgressInRange(s.progress[k], 0.0);
  }

  /** Progress that was on track for a hold at one time is on track at any later time. */
  lemma StillOnTrack(iv: Interval, p: real, clock: int, now: int)
    requires 0.0 <= iv.startProgress <= p < Full && iv.startTime <= clock <= now
    requires p <= NewProgress(iv.startProgress, (clock - iv.startTime) as real)
    ensures p <= NewProgress(iv.startProgress, (now - iv.startTime) as real)
  {
    NewProgressMonotone(iv.startProgress, (clock - iv.startTime) as real, (now - iv.startTime) as real);
  }

  /** A tick of any running interval keeps the controller tidy. */
  lemma TickKeepsTidy(s: State, h: nat, now: int)
    requires Tidy(s) && h in s.scheduled && s.clock <= now
    ensures Tidy(Tick(s, h, now))
  {
    var t := Tick(s, h, now);
    forall g | g in t.scheduled ensures t.handles[t.scheduled[g].animal] == Some(g) {
      assert s.handles[s.scheduled[g].animal] == Some(g);
    }
    forall j | j in t.handles && t.handles[j].Some? ensures OnTrack(t, j) {
      TickOnTrack(s, h, now, j);
    }
  }

  lemma TickOnTrack(s: State, h: nat, now: int, j: string)
    requires Tidy(s) && h in s.scheduled && s.clock <= now
    requires j in Animals && Tick(s, h, now).handles[j].Some?
    ensures OnTrack(Tick(s, h, now), j)
  {
    assert s.handles[j].Some? && OnTrack(s, j);
    if j != s.scheduled[h].animal {
      TickKeepsOtherOnTrack(s, h, now, j);
    } else {
      TickKeepsOwnOnTrack(s, h, now);
    }
  }

  lemma TickKeepsOtherOnTrack(s: State, h: nat, now: int, j: string)
    requires Valid(s) && h in s.scheduled && s.clock <= now
    requires j in Animals && j != s.scheduled[h].animal && s.handles[j].Some? && OnTrack(s, j)
    ensures Tick(s, h, now).handles[j] == s.handles[j] && OnTrack(Tick(s, h, now), j)
  {
    var t := Tick(s, h, now);
    var iv := s.scheduled[s.handles[j].value];
    assert t.scheduled[t.handles[j].value] == iv && t.progress[j] == s.progress[j];
    StillOnTrack(iv, s.progress[j], s.clock, now);
  }

  lemma TickKeepsOwnOnTrack(s: State, h: nat, now: int)
    requires Valid(s) && h in s.scheduled && s.clock <= now
    requires s.handles[s.scheduled[h].animal] == Some(h)
    requires Tick(s, h, now).handles[s.scheduled[h].animal].Some?
    ensures OnTrack(Tick(s, h, now), s.scheduled[h].animal)
  {
    var t := Tick(s, h, now);
    var iv := s.scheduled[h];
    var elapsed := (now - iv.startTime) as real;
    assert t.handles[iv.animal] == Some(h) && t.scheduled[h] == iv;
    assert t.progress[iv.animal] == NewProgress(iv.startProgress, elapsed) < Full;
    NewProgressInRange(iv.startProgress, elapsed);
  }

  /** Releasing keeps the controller tidy. */
  lemma StopKeepsTidy(s: State, k: string)
    requires Tidy(s) && k in Animals
    ensures Tidy(Stop(s, k))
  {
    var t := Stop(s, k);
    forall h | h in t.scheduled ensures t.handles[t.scheduled[h].animal] == Some(h) {
      assert s.handles[s.scheduled[h].animal] == Some(h);
    }
    forall j | j in t.handles && t.handles[j].Some? ensures OnTrack(t, j) {
      assert j != k && t.handles[j] == s.handles[j];
      assert OnTrack(s, j);
    }
  }

  /** Resetting a completed animal (the only time the button exists) keeps
      the controller tidy. */
  lemma ResetKeepsTidy(s: State, k: string)
    requires Tidy(s) && k in Animals && IsComplete(s, k)
    ensures Tidy(Reset(s, k))
  {
  }

  /** A valid state is complete exactly when its progress is 100: the
      button's "complete" state never sees a value above 100. */
  lemma CompleteIffFull(s: State, k: string)
    requires Valid(s) && k in Animals
    ensures IsComplete(s, k) <==> s.progress[k] == Full
  {
  }

  /** In a tidy controller a completed animal is never held and has no
      interval; so Reset never leaves an interval behind. */
  lemma CompleteMeansIdle(s: State, k: string)
    requires Tidy(s) && k in Animals && IsComplete(s, k)
    ensures !s.holding[k] && s.handles[k] == None
    ensures forall h :: h in s.scheduled ==> s.scheduled[h].animal != k
  {
  }

  /** While an animal is held, ticks never lower its progress. */
  lemma TickNeverLowers(s: State, h: nat, now: int)
    requires Tidy(s) && h in s.scheduled && s.clock <= now
    ensures Tick(s, h, now).progress[s.scheduled[h].animal] >= s.progress[s.scheduled[h].animal]
  {
    var k := s.scheduled[h].animal;
    var iv := s.scheduled[h];
    assert s.handles[k] == Some(h) && OnTrack(s, k);
    StillOnTrack(iv, s.progress[k], s.clock, now);
  }

  /** In a tidy controller a firing that completes its animal leaves that
      animal with no interval running, and every other interval as it was. */
  lemma CompletionStopsTimer(s: State, h: nat, now: int)
    requires Tidy(s) && h in s.scheduled && s.clock <= now
    requires IsComplete(Tick(s, h, now), s.scheduled[h].animal)
    ensures var t := Tick(s, h, now);
      && (forall g :: g in t.scheduled ==> t.scheduled[g].animal != s.scheduled[h].animal)
      && t.scheduled == s.scheduled - {h}
  {
    var k := s.scheduled[h].animal;
    var t := Tick(s, h, now);
    assert s.handles[k] == Some(h);
    forall g | g in t.scheduled ensures t.scheduled[g].animal != k {
      assert s.handles[s.scheduled[g].animal] == Some(g);
    }
  }

  /** Stopping twice is the same as stopping once. */
  lemma StopIdempotent(s: State, k: string)
    requires Valid(s) && k in Animals
    ensures Stop(Stop(s, k), k) == Stop(s, k)
  {
  }

  /** After a release no interval of that animal runs, so its progress is
      frozen: whatever fires next leaves it as it was. */
  lemma ReleaseFreezes(s: State, k: string)
    requires Tidy(s) && k in Animals
    ensures forall h :: h in Stop(s, k).scheduled ==> Stop(s, k).scheduled[h].animal != k
    ensures forall h, now :: h in Stop(s, k).scheduled && Stop(s, k).clock <= now ==>
              Tick(Stop(s, k), h, now).progress[k] == s.progress[k]
  {
    var t := Stop(s, k);
    forall h | h in t.scheduled ensures t.scheduled[h].animal != k {
      assert s.handles[s.scheduled[h].animal] == Some(h);
    }
  }

  /** In a tidy controller the unmount cleanup leaves no interval running. */
  lemma CleanupStopsEverything(s: State)
    requires Tidy(s)
    ensures Cleanup(s).scheduled == map[]
  {
    var gone := StoredHandles(s.handles, s.handles.Keys);
    forall h | h in s.scheduled ensures h in gone {
      var k := s.scheduled[h].animal;
      assert s.handles[k] == Some(h);
    }
  }

  // ---------------------------------------------------------------------
  // Starting a hold while a handle is still stored.

  /** startTransformation with the missing step added: the stored interval
      is cleared before the new one starts. */
  function StartCancelling(s: State, k: string, now: int): (t: State)
    requires Valid(s) && k in Animals && s.clock <= now
    ensures Valid(t)
    ensures IsComplete(s, k) ==> t == s
    ensures !IsComplete(s, k) ==> t == Start(Stop(s, k), k, now)
  {
    if IsComplete(s, k) then s else Start(Stop(s, k), k, now)
  }

  /** Pressing in any tidy state, held or not, keeps the controller tidy. */
  lemma StartCancellingKeepsTidy(s: State, k: string, now: int)
    requires Tidy(s) && k in Animals && s.clock <= now
    ensures Tidy(StartCancelling(s, k, now))
  {
    if !IsComplete(s, k) {
      StopKeepsTidy(s, k);
      StartKeepsTidy(Stop(s, k), k, now);
    }
  }

  /** Two presses of the Cat button without a release in between, then a
      release: the first interval is still running, and no stored handle
      refers to it, so neither a release nor the unmount cleanup can clear
      it. Once it fires at 2000 ms it sets the Cat to 100 and, after a
      Reset, sets it back to 100 on its next firing. */
  lemma StartTwiceLeaksInterval()
    ensures var s1 := Start(Init(0), "Cat", 0);
      var s2 := Start(s1, "Cat", 10);
      var s3 := Stop(s2, "Cat");
      && 0 in s3.scheduled && !Tidy(s3)
      && 0 in Cleanup(s3).scheduled
      && var s4 := Tick(s3, 0, 2000);
         && s4.progress["Cat"] == Full && 0 in s4.scheduled
         && var s5 := Reset(s4, "Cat");
            && s5.progress["Cat"] == 0.0
            && Tick(s5, 0, 2016).progress["Cat"] == Full
  {
    var s0 := Init(0);
    var s1 := Start(s0, "Cat", 0);
    var s2 := Start(s1, "Cat", 10);
    var s3 := Stop(s2, "Cat");
    assert s3.handles["Cat"] == None && s3.scheduled[0].animal == "Cat";
    assert 0 !in StoredHandles(s3.handles, s3.handles.Keys);
    CompleteAfterDuration(0.0, 2000.0);
    CompleteAfterDuration(0.0, 2016.0);
  }

  /** Two one-second holds of the Cat, the second starting at 5000 ms: 50
      after the first, still 50 while released, 75 one second into the
      second; held on, it completes at 7000 ms and nothing runs any more. */
  lemma TwoHoldsScenario()
    ensures var s1 := Tick(Start(Init(0), "Cat", 0), 0, 1000);
      && s1.progress["Cat"] == 50.0
      && var s2 := Stop(s1, "Cat");
         && s2.progress["Cat"] == 50.0 && s2.scheduled == map[]
         && var s3 := Tick(Start(s2, "Cat", 5000), 1, 6000);
            && s3.progress["Cat"] == 75.0
            && var s4 := Tick(s3, 1, 7000);
               && IsComplete(s4, "Cat") && !s4.holding["Cat"] && s4.scheduled == map[]
  {
    var s0 := Init(0);
    var s1 := Tick(Start(s0, "Cat", 0), 0, 1000);
    assert s1.progress["Cat"] == NewProgress(0.0, 1000.0) == 50.0;
    var s2 := Stop(s1, "Cat");
    var s3 := Tick(Start(s2, "Cat", 5000), 1, 6000);
    assert s3.progress["Cat"] == NewProgress(50.0, 1000.0) == 75.0;
    CompleteAfterDuration(50.0, 2000.0);
  }
}
