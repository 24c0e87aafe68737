// The daemon side of a version change, statement by statement, over the durable
// records of VersionModel. Every durable step may be the last one: it then returns
// Err(Crashed), which covers both a crash and an error propagated to the caller.
// So a contract that holds on every return holds at every crash point.
module VersionProtocol {
  import opened Common
  import opened VersionModel

  type Status = Result<(), Why>
  type Done = Result<Journal, Why>

  // A reviewed change, as shown to the owner before it is applied.
  datatype Preview = Preview(previous: Option<Instance>, target: Instance, reset: bool,
                             marker: Option<Instance>)

  function MarkerAt(d: Disk, home: Folder): Option<Instance> {
    if home in d.markers then Some(d.markers[home]) else None
  }

  // The decision part of `preview_mode`: what the requested change would be.
  function Review(d: Disk, version: string, network: string, watchOnly: bool): Result<Preview, Why> {
    if Unfinished(d) then Err(NeedsRecovery) else
    var destructive := d.active.Some? && d.active.value.version != version;
    if destructive then
      var p := d.active.value;
      if p.network != network || p.watchOnly != watchOnly then Err(Stale)
      else
        var target := p.(version := version, dataId := Some(p.Name()));
        Ok(Preview(d.active, target, true, MarkerAt(d, target.Home())))
    else if d.active.Some? && d.active.value.network == network && d.active.value.watchOnly == watchOnly then
      Err(Stale)
    else
      var saved := (network, watchOnly) in d.registry;
      if saved && d.registry[(network, watchOnly)].version != version then Err(Stale)
      else
        var target := if saved then d.registry[(network, watchOnly)] else Instance(version, network, watchOnly, None);
        if target.Home() in d.markers && !MarkerIs(d, target) then Err(Stale)
        else Ok(Preview(d.active, target, false, MarkerAt(d, target.Home())))
  }

  function FirstJournal(p: Preview): Journal {
    Journal(Stopping, p.previous, p.target, p.reset, false)
  }

  // A review never proposes deletion together with a change of network or mode, and
  // a reset keeps the folder, so the journal it leads to has the reviewed shape.
  lemma ReviewIsWellFormed(w: World, version: string, network: string, watchOnly: bool)
    requires Sound(w) && Review(w.disk, version, network, watchOnly).Ok?
    ensures var p := Review(w.disk, version, network, watchOnly).value;
      && Reviewed(FirstJournal(p))
      && p.target.version == version && p.target.network == network && p.target.watchOnly == watchOnly
      && (p.reset <==> p.previous.Some? && p.previous.value.version != version)
      && (p.reset ==> p.target.Home() == p.previous.value.Home())
      && p.previous == w.disk.active && p.marker == MarkerAt(w.disk, p.target.Home())
      && (!p.reset && (network, watchOnly) in w.disk.registry ==> p.target == w.disk.registry[(network, watchOnly)])
      && (!p.reset && (network, watchOnly) !in w.disk.registry ==> p.target.dataId.None?)
  {
  }

  // What a review refuses: anything while a transition is unfinished, the selection that
  // is active, a change of version together with one of network or mode, a network and
  // mode saved under another version, and a folder that holds another instance.
  lemma ReviewRefuses(w: World, version: string, network: string, watchOnly: bool)
    requires Sound(w)
    ensures Unfinished(w.disk) ==> Review(w.disk, version, network, watchOnly).Err?
    ensures w.disk.active.Some? && w.disk.active.value.network == network && w.disk.active.value.watchOnly == watchOnly ==>
      (Review(w.disk, version, network, watchOnly).Ok? <==>
        !Unfinished(w.disk) && w.disk.active.value.version != version)
    ensures w.disk.active.Some? && w.disk.active.value.version != version
            && (w.disk.active.value.network, w.disk.active.value.watchOnly) != (network, watchOnly) ==>
      Review(w.disk, version, network, watchOnly).Err?
    ensures (w.disk.active.None? || w.disk.active.value.version == version)
            && (w.disk.active.None? || (w.disk.active.value.network, w.disk.active.value.watchOnly) != (network, watchOnly)) ==>
      var known, key := w.disk.registry, (network, watchOnly);
      var target := if key in known then known[key] else Instance(version, network, watchOnly, None);
      (Review(w.disk, version, network, watchOnly).Ok? <==>
        && !Unfinished(w.disk) && target.version == version
        && (target.Home() in w.disk.markers ==> w.disk.markers[target.Home()] == target))
  {
  }

  // The world right after the root helper wrote the guard record.
  function Guarded(w: World): World
    requires Inhibit(w.disk).Ok?
  {
    var g := Inhibit(w.disk).value;
    var seen := g.targetReady && !(w.disk.guard.Some? && w.disk.guard.value.targetReady);
    w.(disk := w.disk.(guard := Some(g)),
       history := if seen then w.history + [SeenEmpty(g.target.Home())] else w.history)
  }

  lemma InhibitKeepsSound(w: World)
    requires Sound(w) && Inhibit(w.disk).Ok?
    requires var j := w.disk.journal.value; j.phase == Stopping || (j.deletionStarted && j.phase != Committed)
    ensures Sound(Guarded(w))
  {
    var j, w' := w.disk.journal.value, Guarded(w);
    if w'.history != w.history {
      var k := |w.history|;
      assert w'.history[..k] == w.history;
      assert Turning(w'.history, k, j.target);
    }
  }

  lemma ReleaseKeepsSound(w: World)
    requires Sound(w) && Release(w.disk).Ok?
    ensures Sound(w.(disk := w.disk.(guard := None)))
  {
  }

  // The phases in which the daemon asks for a start.
  predicate StartPhase(d: Disk) {
    d.journal.Some? && (d.journal.value.phase == Starting || d.journal.value.phase == RestoringPrevious)
  }

  // Rewriting the service configuration, or registering the active selection.
  lemma RegistrationKeepsSound(w: World, profile: Option<Instance>, ready: Option<Instance>)
    requires Sound(w) && StartPhase(w.disk)
    requires ready == w.disk.ready || ready == w.disk.active
    ensures Sound(w.(disk := w.disk.(profile := profile, ready := ready)))
  {
  }

  // Recover always finds a guard it may set again, unless an earlier transition left its own.
  lemma InhibitAccepts(w: World)
    requires Sound(w) && w.disk.journal.Some?
    requires var j := w.disk.journal.value;
      && j.reset && !Leftover(w.disk.guard, j) && !(j.phase == Committed && w.disk.guard.None?)
    ensures Inhibit(w.disk).Ok?
  {
    var j := w.disk.journal.value;
    assert j.target.Home() == j.previous.value.Home();
    if j.phase == Activating && !w.disk.guard.value.targetReady {
      assert Chain(w.disk, j.target.Home()) == {};
    }
  }

  // A device whose last reset committed, but lost power before the guard was released.
  function LeftoverExample(): World {
    var a := Instance("27.0", "main", false, None);
    var b := a.(version := "28.0", dataId := Some("27.0"));
    World(Disk(Some(Journal(Committed, Some(a), b, true, true)), Some(b), map[b.Home() := b],
               Some(Guard(a, b, true, true)), Some(b), Some(b), map[("main", false) := b], {}),
          None, [SeenEmpty(b.Home())])
  }

  // On it, the next reset is reviewed and journalled, and then neither its guard is
  // accepted nor the old one released, and nothing may be started.
  lemma LeftoverGuardBlocks()
    ensures var w := LeftoverExample();
      && Sound(w)
      && var review := Review(w.disk, "29.0", "main", false);
         && review.Ok? && Current(w.disk, review.value)
         && forall phase :: phase == Stopping || phase == Recovering ==>
              var d := w.disk.(journal := Some(FirstJournal(review.value).(phase := phase)));
              Inhibit(d).Err? && Release(d).Err? && !Gate(d)
  {
    LeftoverIsSound();
    hide Sound;
  }

  lemma LeftoverIsSound()
    ensures Sound(LeftoverExample())
  {
    var w := LeftoverExample();
    assert Turning(w.history, 0, w.disk.journal.value.target);
  }

  // Where `finish` is entered: from apply with everything stopped, or from recover.
  ghost predicate ReadyToFinish(w: World, j: Journal) {
    if j.deletionStarted then j.phase != Committed
    else
      && j.phase == Stopping
      && (j.reset ==> w.running.None? && Ours(w.disk.guard, j))
  }

  // The allowlist was seen empty: the target may be bound and started.
  ghost predicate TargetReady(w: World, j: Journal) {
    && (j.phase == Activating || j.phase == Starting || j.phase == TargetStartFailed)
    && w.disk.guard.Some? && w.disk.guard.value.targetReady
  }

  lemma SwitchGuard(w: World, j: Journal)
    requires Sound(w) && w.disk.journal == Some(j)
    ensures !j.reset ==> w.disk.guard.None? || Leftover(w.disk.guard, j)
    ensures j.reset ==> j.previous.Some?
  {
  }

  lemma PastActivating(w: World, j: Journal)
    requires Sound(w) && w.disk.journal == Some(j) && j.reset && j.deletionStarted
    requires j.phase != Resetting && j.phase != ResetFailed && j.phase != Activating && j.phase != Committed
    ensures TargetReady(w, j)
  {
  }

  // The preview still matches the device: same selection, registered and marked,
  // and the folder of the target as it was reviewed.
  predicate Reviewable(d: Disk, p: Preview) {
    && d.active == p.previous
    && (d.active.Some? ==> MarkerIs(d, d.active.value) && Gate(d))
  }

  predicate Current(d: Disk, p: Preview) {
    && Reviewable(d, p)
    && MarkerAt(d, p.target.Home()) == p.marker
    && (!p.reset ==> p.marker.None? || p.marker == Some(p.target))
  }

  // A failure of something outside the daemon, or a crash; never its own refusal.
  predicate FromOutside(why: Why) {
    why == Crashed || why == RuntimeFailed || why == WorkerFailed || why == GuardRefused || why == Stale
  }

  function Saved(d: Disk, i: Instance): Disk {
    d.(registry := d.registry[(i.network, i.watchOnly) := i])
  }

  // The earlier transition still, or the reviewed one; with no leftover guard where
  // there was no guard.
  ghost predicate Entered(w: World, later: World, p: Preview) {
    || Onward(w, later)
    || (later.disk.journal.Some?
        && var j := later.disk.journal.value;
           && j.previous == p.previous && j.target == p.target && j.reset == p.reset
           && (w.disk.guard.None? ==> !Leftover(later.disk.guard, j)))
  }

  // The journal of the same transition.
  ghost predicate Same(j: Option<Journal>, j': Journal) {
    j.Some? && j' == j.value.(phase := j'.phase, deletionStarted := j'.deletionStarted)
  }

  lemma StillEntered(w: World, before: World, later: World, p: Preview)
    requires Entered(w, before, p) && Onward(before, later)
    ensures Entered(w, later, p)
  {
    hide Leftover;
  }

  lemma NothingLeftOver(w: World, later: World, p: Preview)
    requires w.disk.guard.None? && Entered(w, later, p)
    ensures later.disk.journal.Some? ==> !Leftover(later.disk.guard, later.disk.journal.value)
    ensures later.disk.journal.Some? ==>
      var j := later.disk.journal.value;
      || (j.previous == p.previous && j.target == p.target && j.reset == p.reset)
      || Same(w.disk.journal, j)
    ensures later.disk.journal.None? ==> w.disk.journal.None?
  {
  }

  lemma NoGuardWithoutJournal(w: World)
    requires Sound(w) && w.disk.journal.None?
    ensures w.disk.guard.None?
  {
  }

  lemma AppliedIsKept(w: World, p: Preview)
    requires Sound(w) && w.disk.journal.Some?
    requires var j := w.disk.journal.value; j.previous == p.previous && j.target == p.target && j.reset == p.reset
    ensures p.previous.Some? && !p.reset ==> Remembered(w.disk, p.previous.value)
    ensures w.disk.journal.value.phase == StopFailed && w.disk.active.Some? && w.disk.guard.None? ==> Gate(w.disk)
  {
  }

  lemma PreviousIsActive(w: World, j: Journal)
    requires Sound(w) && w.disk.journal == Some(j) && j.phase == RestoringPrevious && j.previous.Some?
    ensures w.disk.active == j.previous && MarkerIs(w.disk, j.previous.value)
    ensures w.disk.guard.None? || Leftover(w.disk.guard, j)
  {
  }

  lemma RememberKeepsSound(w: World, j: Journal)
    requires Sound(w) && w.disk.journal == Some(j)
    requires j.reset ==> j.deletionStarted && TargetReady(w, j)
    ensures Sound(w.(disk := Saved(w.disk, j.target)))
  {
  }

  // Where a finished transition leaves the selection.
  lemma FinishedIsSettled(w: World)
    requires Sound(w) && w.disk.journal.Some? && Terminal(w.disk.journal.value.phase)
    ensures var j := w.disk.journal.value;
      w.disk.active == if j.phase == Committed then Some(j.target) else j.previous
  {
  }

  // The appliance and its version daemon. `calm` says that from here on nothing
  // crashes and the runtime, the worker and the outside checks succeed.
  class Appliance {
    var w: World

    constructor ()
      ensures Sound(w) && w.disk.journal.None?
    {
      w := World(Disk(None, None, map[], None, None, None, map[], {}), None, []);
    }

    // ------------------------------------------------------------ environment

    // A crash, or a failure of something outside this model, may strike here.
    method Trouble(why: Why, calm: bool) returns (r: Status)
      ensures r.Err? ==> r.error == Crashed || r.error == why
      ensures calm ==> r.Ok?
    {
      r := *;
      if calm || (r.Err? && r.error != Crashed && r.error != why) {
        r := Ok(());
      }
    }

    // Any number of service starts, deaths and chain writes.
    method Background()
      requires Sound(w)
      modifies this
      ensures Sound(w) && Drifted(old(w), w)
      ensures Onward(old(w), w)
    {
      var cs: seq<Choice> := *;
      DriveKeepsSound(w, cs);
      DriveDrifts(w, cs);
      w := Drive(w, cs);
    }

    // One atomic durable write, then whatever the environment does.
    method Write(d: Disk, calm: bool) returns (r: Status)
      requires Sound(w) && Sound(w.(disk := d)) && Onward(w, w.(disk := d))
      modifies this
      ensures Sound(w)
      ensures Onward(old(w), w)
      ensures r.Ok? ==> Drifted(old(w).(disk := d), w)
      ensures r.Err? ==> r.error == Crashed
      ensures calm ==> r.Ok?
    {
      var _ :- Trouble(Crashed, calm);
      w := w.(disk := d);
      Background();
      r := Trouble(Crashed, calm);
    }

    method Persist(j: Journal, calm: bool) returns (r: Status)
      requires Sound(w) && Sound(w.(disk := w.disk.(journal := Some(j))))
      requires Onward(w, w.(disk := w.disk.(journal := Some(j))))
      modifies this
      ensures Sound(w)
      ensures Onward(old(w), w)
      ensures r.Ok? ==> Drifted(old(w).(disk := old(w).disk.(journal := Some(j))), w)
      ensures r.Err? ==> r.error == Crashed
      ensures calm ==> r.Ok?
    {
      r := Write(w.disk.(journal := Some(j)), calm);
    }

    // ---------------------------------------------------------------- runtime

    // `stop` proves that every writer exited; a failed stop may have stopped some.
    method Stop(calm: bool) returns (r: Status)
      requires Sound(w)
      modifies this
      ensures Sound(w)
      ensures Onward(old(w), w)
      ensures r.Ok? ==> Drifted(old(w).(running := None), w)
      ensures r.Err? ==>
                || r.error == Crashed
                || (r.error == RuntimeFailed && (w == old(w) || w == old(w).(running := None)))
      ensures calm ==> r.Ok?
    {
      EnvironmentKeepsSound(w, StopCore);
      r := Trouble(RuntimeFailed, calm);
      if r.Err? {
        var reached: bool := *;
        if reached { w := w.(running := None); }
        return;
      }
      w := w.(running := None);
      Background();
      r := Trouble(Crashed, calm);
    }

    // `guard`: the root helper sets or releases the reset guard.
    method Guard(blocked: bool, calm: bool) returns (r: Status)
      requires Sound(w)
      requires blocked && Inhibit(w.disk).Ok? ==> Sound(Guarded(w))
      modifies this
      ensures Sound(w)
      ensures Onward(old(w), w)
      ensures r.Ok? && blocked ==> Inhibit(old(w).disk).Ok? && Drifted(Guarded(old(w)), w)
      ensures r.Ok? && !blocked ==>
                Release(old(w).disk).Ok? && Drifted(old(w).(disk := old(w).disk.(guard := None)), w)
      ensures r.Err? ==> r.error == Crashed || (r.error == GuardRefused && w == old(w))
      ensures calm ==> (r.Ok? <==> if blocked then Inhibit(old(w).disk).Ok? else Release(old(w).disk).Ok?)
      ensures calm && r.Err? ==> r.error == GuardRefused
    {
      var _ :- Trouble(Crashed, calm);
      if blocked {
        if Inhibit(w.disk).Err? { return Err(GuardRefused); }
        w := Guarded(w);
      } else {
        if Release(w.disk).Err? { return Err(GuardRefused); }
        ReleaseKeepsSound(w);
        w := w.(disk := w.disk.(guard := None));
      }
      Background();
      r := Trouble(Crashed, calm);
    }

    // One write of the configuration or the registration.
    method Register(profile: Option<Instance>, ready: Option<Instance>, calm: bool) returns (r: Status)
      requires Sound(w) && StartPhase(w.disk)
      requires ready == w.disk.ready || ready == w.disk.active
      modifies this
      ensures Sound(w)
      ensures Onward(old(w), w)
      ensures r.Ok? ==> Drifted(old(w).(disk := old(w).disk.(profile := profile, ready := ready)), w)
      ensures r.Err? ==> r.error == Crashed
      ensures calm ==> r.Ok?
    {
      RegistrationKeepsSound(w, profile, ready);
      r := Write(w.disk.(profile := profile, ready := ready), calm);
    }

    // `activate`: the root helper stops everything and rewrites the configuration and
    // the registration for the active selection.
    method Activate(i: Instance, calm: bool) returns (r: Status)
      requires Sound(w) && StartPhase(w.disk) && w.disk.active == Some(i)
      modifies this
      ensures Sound(w)
      ensures Onward(old(w), w)
      ensures r.Err? ==> r.error == Crashed || r.error == RuntimeFailed
      ensures r.Ok? || r.error == RuntimeFailed ==>
                && w.disk == old(w).disk.(profile := w.disk.profile, ready := w.disk.ready, entries := w.disk.entries)
                && old(w).history <= w.history
      ensures r.Ok? ==> w.disk.profile == w.disk.ready == Some(i) && (w.running.None? || w.running == Some(i))
      ensures calm ==> (r.Ok? <==> MarkerIs(old(w).disk, i))
      ensures calm && r.Err? ==> r.error == RuntimeFailed
    {
      hide Sound, JournalAllows, GuardAllows;
      if !MarkerIs(w.disk, i) { return Err(RuntimeFailed); }
      var _ :- Stop(calm);
      var _ :- Register(None, w.disk.ready, calm);
      var _ :- Register(Some(i), w.disk.ready, calm);
      r := Register(Some(i), Some(i), calm);
    }

    // `start_and_check`: activate, start Core through the gate, wait for it to be healthy.
    method StartAndCheck(i: Instance, calm: bool) returns (r: Status)
      requires Sound(w) && StartPhase(w.disk) && w.disk.active == Some(i)
      modifies this
      ensures Sound(w)
      ensures Onward(old(w), w)
      ensures r.Err? ==> r.error == Crashed || r.error == RuntimeFailed
      ensures r.Ok? || r.error == RuntimeFailed ==>
                && w.disk == old(w).disk.(profile := w.disk.profile, ready := w.disk.ready, entries := w.disk.entries)
                && old(w).history <= w.history
      ensures r.Ok? ==> Gate(w.disk) && w.disk.ready == Some(i) && (w.running.None? || w.running == Some(i))
      ensures calm ==> (r.Ok? <==> Gate(old(w).disk.(profile := Some(i), ready := Some(i))))
      ensures calm && r.Err? ==> r.error == RuntimeFailed
    {
      hide Sound;
      var _ :- Activate(i, calm);
      EnvironmentKeepsSound(w, StartCore);
      w := Environment(w, StartCore);
      if w.running != Some(i) || !Gate(w.disk) { return Err(RuntimeFailed); }
      var _ :- Trouble(RuntimeFailed, calm);
      Background();
      r := Trouble(Crashed, calm);
    }

    // ----------------------------------------------------------- chain worker

    // The worker's read-only actions: they may refuse, and change nothing.
    method Validate(calm: bool) returns (r: Status)
      requires Sound(w)
      modifies this
      ensures Sound(w) && Drifted(old(w), w)
      ensures Onward(old(w), w)
      ensures r.Err? ==> FromOutside(r.error)
      ensures calm ==> r.Ok?
    {
      Background();
      r := Trouble(WorkerFailed, calm);
    }

    // The deleting action: one unlink at a time, refused while Core holds its lock.
    method Reset(target: Instance, calm: bool) returns (r: Status)
      requires Sound(w) && w.disk.journal.Some?
      requires var j := w.disk.journal.value;
        && j.deletionStarted && j.target == target && (j.phase == Resetting || j.phase == ResetFailed)
        && w.disk.guard.value.irreversible
      modifies this
      ensures Sound(w)
      ensures Onward(old(w), w)
      ensures w.disk == old(w).disk.(entries := w.disk.entries)
      ensures w.running.None?
      ensures old(w).history <= w.history
      ensures forall e :: e in old(w).disk.entries && e.home != target.Home() ==> e in w.disk.entries
      ensures r.Ok? ==> Chain(w.disk, target.Home()) == {}
      ensures r.Err? ==> FromOutside(r.error)
      ensures calm ==> r.Ok?
    {
      if w.running.Some? { return Err(WorkerFailed); }
      while Chain(w.disk, target.Home()) != {}
        invariant Sound(w) && w.running.None?
        invariant w.disk == old(w).disk.(entries := w.disk.entries)
        invariant old(w).history <= w.history
        invariant forall e :: e in old(w).disk.entries && e.home != target.Home() ==> e in w.disk.entries
        decreases Chain(w.disk, target.Home())
      {
        var _ :- Trouble(WorkerFailed, calm);
        var e :| e in Chain(w.disk, target.Home());
        ghost var before := w;
        w := w.(disk := w.disk.(entries := w.disk.entries - {e}),
                history := w.history + [Unlinked(e, w.disk.journal.value, w.disk.guard)]);
        UnlinkKeepsSound(before, e);
        assert Chain(w.disk, target.Home()) < Chain(before.disk, target.Home());
        Background();
      }
      r := Ok(());
    }

    // ----------------------------------------------------------------- daemon

    // The last part of `restore`: start the previous profile and record the outcome.
    method StartPrevious(j0: Journal, calm: bool) returns (r: Done)
      requires Sound(w) && w.disk.journal == Some(j0) && j0.phase == RestoringPrevious && j0.previous.Some?
      modifies this
      ensures Sound(w)
      ensures Onward(old(w), w)
      ensures r.Ok? ==> w.disk.journal == Some(r.value)
      ensures r.Err? ==> r.error == Crashed
      ensures calm ==> r.Ok? && w.disk.active == j0.previous && w.disk.guard == old(w).disk.guard
      ensures calm ==> r.value == j0.(phase := if old(w).disk.guard.None? then RolledBack else RecoveryFailed)
      ensures r.Ok? ==> r.value == j0.(phase := r.value.phase) && r.value.phase in {RolledBack, RecoveryFailed}
      ensures r.Ok? ==> w.disk.active == j0.previous && w.disk.guard == old(w).disk.guard
    {
      PreviousIsActive(w, j0);
      hide Sound;
      var started := StartAndCheck(j0.previous.value, calm);
      if started == Err(Crashed) { return Err(Crashed); }
      r := PersistPrevious(j0, started.Ok?, calm);
    }

    method PersistPrevious(j0: Journal, started: bool, calm: bool) returns (r: Done)
      requires Sound(w) && w.disk.journal == Some(j0) && j0.phase == RestoringPrevious && j0.previous.Some?
      requires started ==> Gate(w.disk) && (w.running.None? || w.running == j0.previous)
      modifies this
      ensures Sound(w)
      ensures Onward(old(w), w)
      ensures r.Ok? ==> w.disk.journal == Some(r.value)
      ensures r.Ok? ==> r.value == j0.(phase := if started then RolledBack else RecoveryFailed)
      ensures r.Ok? ==> w.disk.active == old(w).disk.active && w.disk.guard == old(w).disk.guard
      ensures r.Err? ==> r.error == Crashed
      ensures calm ==> r.Ok?
    {
      var j := j0.(phase := if started then RolledBack else RecoveryFailed);
      var _ :- Persist(j, calm);
      r := Ok(j);
    }

    // The middle part: select the previous profile again and drop this reset's guard.
    method SelectPrevious(j0: Journal, calm: bool) returns (r: Status)
      requires Sound(w) && w.disk.journal == Some(j0) && j0.phase == Recovering && j0.previous.Some?
      modifies this
      ensures Sound(w)
      ensures Onward(old(w), w)
      ensures r.Ok? ==> w.disk.journal == Some(j0) && w.disk.active == j0.previous
      ensures r.Ok? ==> w.disk.guard == if j0.reset then None else old(w).disk.guard
      ensures r.Err? ==> r.error == Crashed || r.error == RuntimeFailed || r.error == GuardRefused
      ensures calm ==> r == if j0.reset && Leftover(old(w).disk.guard, j0) then Err(GuardRefused) else Ok(())
    {
      var previous := j0.previous.value;
      if !MarkerIs(w.disk, previous) { return Err(RuntimeFailed); }
      var _ :- Trouble(RuntimeFailed, calm);
      var _ :- Write(w.disk.(active := Some(previous)), calm);
      if j0.reset {
        var _ :- Guard(false, calm);
      }
      r := Ok(());
    }

    // `restore`: back to the previous profile; only ever before the point of no return.
    method Restore(j0: Journal, calm: bool) returns (r: Done)
      requires Sound(w) && w.disk.journal == Some(j0) && !j0.deletionStarted && j0.phase != Committed
      modifies this
      ensures Sound(w)
      ensures Onward(old(w), w)
      ensures r.Ok? ==> w.disk.journal == Some(r.value)
      ensures r.Err? ==> r.error == Crashed || r.error == RuntimeFailed || r.error == GuardRefused
      ensures calm && !Leftover(old(w).disk.guard, j0) ==>
                && r == Done.Ok(j0.(phase := RolledBack))
                && w.disk.active == j0.previous && w.disk.guard.None?
      ensures calm && Leftover(old(w).disk.guard, j0) ==>
                r == if j0.reset then Done.Err(GuardRefused) else Done.Ok(j0.(phase := RecoveryFailed))
      ensures r.Ok? ==> r.value == j0.(phase := r.value.phase) && r.value.phase in {RolledBack, RecoveryFailed}
      ensures r.Ok? ==> w.disk.active == j0.previous && (j0.reset ==> w.disk.guard.None?)
    {
      SwitchGuard(w, j0);
      hide Sound;
      var j := j0.(phase := Recovering);
      var _ :- PersistRecovering(j, calm);
      var _ :- Stop(calm);
      if j.previous.Some? {
        var _ :- SelectPrevious(j, calm);
        j := j.(phase := RestoringPrevious);
        var _ :- PersistRestoring(j, calm);
        r := StartPrevious(j, calm);
      } else {
        r := ForgetSelection(j, calm);
      }
    }

    method PersistRestoring(j: Journal, calm: bool) returns (r: Status)
      requires Sound(w) && w.disk.journal == Some(j.(phase := Recovering))
      requires j.phase == RestoringPrevious && j.previous.Some? && w.disk.active == j.previous
      requires j.reset ==> w.disk.guard.None?
      modifies this
      ensures Sound(w)
      ensures Onward(old(w), w)
      ensures r.Ok? ==> w.disk == old(w).disk.(journal := Some(j), entries := w.disk.entries)
      ensures r.Err? ==> r.error == Crashed
      ensures calm ==> r.Ok?
    {
      r := Persist(j, calm);
    }

    method PersistRecovering(j: Journal, calm: bool) returns (r: Status)
      requires Sound(w) && w.disk.journal.Some? && !j.deletionStarted
      requires w.disk.journal.value.phase != Committed && j == w.disk.journal.value.(phase := Recovering)
      modifies this
      ensures Sound(w)
      ensures Onward(old(w), w)
      ensures r.Ok? ==> w.disk == old(w).disk.(journal := Some(j), entries := w.disk.entries)
      ensures r.Err? ==> r.error == Crashed
      ensures calm ==> r.Ok?
    {
      r := Persist(j, calm);
    }

    // Without a previous profile the selection itself is removed.
    method ForgetSelection(j0: Journal, calm: bool) returns (r: Done)
      requires Sound(w) && w.disk.journal == Some(j0) && j0.phase == Recovering && j0.previous.None?
      modifies this
      ensures Sound(w)
      ensures Onward(old(w), w)
      ensures r.Ok? ==> w.disk.journal == Some(r.value)
      ensures r.Err? ==> r.error == Crashed
      ensures calm ==> r == Done.Ok(j0.(phase := RolledBack)) && w.disk.active.None? && w.disk.guard.None?
      ensures r.Ok? ==> r.value == j0.(phase := RolledBack) && w.disk.active.None?
    {
      if w.disk.active.Some? {
        var _ :- Write(w.disk.(active := None), calm);
      }
      var j := j0.(phase := RolledBack);
      var _ :- Persist(j, calm);
      r := Ok(j);
    }

    // The point of no return is persisted after a last validation.
    method CrossPointOfNoReturn(j0: Journal, calm: bool) returns (r: Done)
      requires Sound(w) && w.disk.journal == Some(j0) && j0.reset && !j0.deletionStarted && ReadyToFinish(w, j0)
      modifies this
      ensures Sound(w)
      ensures Onward(old(w), w)
      ensures r.Err? ==> FromOutside(r.error)
      ensures r.Ok? ==> r.value == j0.(deletionStarted := true, phase := Resetting)
      ensures r.Ok? ==> w.disk.journal == Some(r.value)
      ensures calm ==> r.Ok?
    {
      var _ :- Validate(calm);
      var j := j0.(deletionStarted := true, phase := Resetting);
      var _ :- Persist(j, calm);
      r := Ok(j);
    }

    // The guard is made irreversible, the worker deletes, and the outcome is persisted.
    method DeleteChain(j0: Journal, calm: bool) returns (r: Done)
      requires Sound(w) && w.disk.journal == Some(j0) && j0.deletionStarted
      requires j0.phase == Resetting || j0.phase == ResetFailed
      modifies this
      ensures Sound(w)
      ensures Onward(old(w), w)
      ensures r.Err? ==> FromOutside(r.error)
      ensures r.Ok? ==> w.disk.journal == Some(r.value)
      ensures r.Ok? ==> r.value == j0.(phase := Activating) || r.value == j0.(phase := ResetFailed)
      ensures calm ==> r == Done.Ok(j0.(phase := Activating))
    {
      var _ :- Inhibited(calm);
      var emptied := Reset(j0.target, calm);
      if emptied == Err(Crashed) { return Err(Crashed); }
      var j := j0.(phase := if emptied.Ok? then Activating else ResetFailed);
      var _ :- Persist(j, calm);
      r := Ok(j);
    }

    // The first part of `finish`, for a reset: the point of no return is persisted
    // and guarded before the first unlink, and the root helper sees the scope empty
    // before the target may be activated.
    method EmptyChain(j0: Journal, calm: bool) returns (r: Done)
      requires Sound(w) && w.disk.journal == Some(j0) && ReadyToFinish(w, j0) && j0.reset
      modifies this
      ensures Sound(w)
      ensures Onward(old(w), w)
      ensures r.Err? ==> FromOutside(r.error)
      ensures r.Ok? ==> w.disk.journal == Some(r.value)
      ensures r.Ok? ==> r.value.deletionStarted && r.value == j0.(phase := r.value.phase, deletionStarted := true)
      ensures r.Ok? && r.value.phase != ResetFailed ==> TargetReady(w, r.value)
      ensures calm ==> r.Ok? && r.value.phase != ResetFailed
    {
      hide Sound, Drifted;
      var j := j0;
      if !j.deletionStarted {
        j :- CrossPointOfNoReturn(j, calm);
      }
      if j.phase == Resetting || j.phase == ResetFailed {
        j :- DeleteChain(j, calm);
        if j.phase == ResetFailed { return Ok(j); }
      }
      if j.phase == Activating {
        r := MarkReady(j, calm);
      } else {
        PastActivating(w, j);
        r := Ok(j);
      }
    }

    // The root helper sees the scope empty.
    method MarkReady(j: Journal, calm: bool) returns (r: Done)
      requires Sound(w) && w.disk.journal == Some(j) && j.reset && j.deletionStarted && j.phase == Activating
      modifies this
      ensures Sound(w)
      ensures Onward(old(w), w)
      ensures r.Err? ==> FromOutside(r.error)
      ensures r.Ok? ==> r.value == j && w.disk.journal == Some(j) && TargetReady(w, j)
      ensures calm ==> r.Ok?
    {
      var _ :- Inhibited(calm);
      r := Ok(j);
    }

    // `guard(true)` where recovery or the deletion needs it.
    method Inhibited(calm: bool) returns (r: Status)
      requires Sound(w) && w.disk.journal.Some?
      requires var j := w.disk.journal.value; j.deletionStarted && j.phase != Committed
      modifies this
      ensures Sound(w)
      ensures Onward(old(w), w)
      ensures r.Ok? ==> Inhibit(old(w).disk).Ok? && Drifted(Guarded(old(w)), w)
      ensures r.Err? ==> r.error == Crashed || r.error == GuardRefused
      ensures calm ==> r.Ok?
    {
      if Inhibit(w.disk).Ok? {
        InhibitKeepsSound(w);
      }
      InhibitAccepts(w);
      r := Guard(true, calm);
    }

    // The middle part of `finish`: bind the folder to the target (for a reset), select
    // it, remember it and announce the start. The journal is persisted last.
    method SelectTarget(j0: Journal, calm: bool) returns (r: Done)
      requires Sound(w) && w.disk.journal == Some(j0)
      requires if j0.reset then j0.deletionStarted && TargetReady(w, j0) else j0.phase == Stopping
      modifies this
      ensures Sound(w)
      ensures Onward(old(w), w)
      ensures r.Err? ==> FromOutside(r.error)
      ensures r.Ok? ==> r.value == j0.(phase := Starting)
      ensures r.Ok? ==> w.disk.journal == Some(r.value) && w.disk.guard == old(w).disk.guard
      ensures calm ==> r.Ok?
    {
      hide Sound;
      if j0.reset {
        var _ :- Trouble(Stale, calm);
        var _ :- BindFolder(j0, calm);
      }
      var _ :- PersistActive(j0, calm);
      var _ :- RememberTarget(j0, calm);
      r := PersistStarting(j0, calm);
    }

    method PersistStarting(j0: Journal, calm: bool) returns (r: Done)
      requires Sound(w) && w.disk.journal == Some(j0)
      requires if j0.reset then j0.deletionStarted && TargetReady(w, j0) && MarkerIs(w.disk, j0.target)
               else j0.phase == Stopping
      requires w.disk.active == Some(j0.target) && Remembered(w.disk, j0.target)
      modifies this
      ensures Sound(w)
      ensures Onward(old(w), w)
      ensures r.Err? ==> FromOutside(r.error)
      ensures r.Ok? ==> r.value == j0.(phase := Starting)
      ensures r.Ok? ==> w.disk.journal == Some(r.value) && w.disk.guard == old(w).disk.guard
      ensures calm ==> r.Ok?
    {
      var j := j0.(phase := Starting);
      var _ :- Persist(j, calm);
      r := Ok(j);
    }

    method PersistActive(j: Journal, calm: bool) returns (r: Status)
      requires Sound(w) && w.disk.journal == Some(j)
      requires if j.reset then j.deletionStarted && TargetReady(w, j) && MarkerIs(w.disk, j.target)
               else j.phase == Stopping
      modifies this
      ensures Sound(w)
      ensures Onward(old(w), w)
      ensures r.Err? ==> FromOutside(r.error)
      ensures r.Ok? ==> w.disk == old(w).disk.(active := Some(j.target), entries := w.disk.entries)
      ensures calm ==> r.Ok?
    {
      r := Write(w.disk.(active := Some(j.target)), calm);
    }

    method BindFolder(j: Journal, calm: bool) returns (r: Status)
      requires Sound(w) && w.disk.journal == Some(j) && j.reset && j.deletionStarted && TargetReady(w, j)
      modifies this
      ensures Sound(w)
      ensures Onward(old(w), w)
      ensures r.Err? ==> FromOutside(r.error)
      ensures r.Ok? ==> MarkerIs(w.disk, j.target)
      ensures r.Ok? ==> w.disk == old(w).disk.(markers := w.disk.markers, entries := w.disk.entries)
      ensures calm ==> r.Ok?
    {
      r := Write(w.disk.(markers := w.disk.markers[j.target.Home() := j.target]), calm);
    }

    method RememberTarget(j: Journal, calm: bool) returns (r: Status)
      requires Sound(w) && w.disk.journal == Some(j)
      requires j.reset ==> j.deletionStarted && TargetReady(w, j)
      modifies this
      ensures Sound(w)
      ensures Onward(old(w), w)
      ensures r.Err? ==> FromOutside(r.error)
      ensures r.Ok? ==> Remembered(w.disk, j.target)
      ensures r.Ok? ==> w.disk == old(w).disk.(registry := w.disk.registry, entries := w.disk.entries)
      ensures calm ==> r.Ok?
    {
      RememberKeepsSound(w, j);
      hide Sound;
      r := Write(Saved(w.disk, j.target), calm);
    }

    // The last part of `finish`: start the target and record the outcome.
    method StartTarget(j0: Journal, calm: bool) returns (r: Done)
      requires Sound(w) && w.disk.journal == Some(j0) && j0.phase == Starting
      modifies this
      ensures Sound(w)
      ensures Onward(old(w), w)
      ensures r.Err? ==> FromOutside(r.error)
      ensures r.Ok? ==> w.disk.journal == Some(r.value)
      ensures calm && !Leftover(old(w).disk.guard, j0) ==>
                && r == Done.Ok(j0.(phase := Committed))
                && w.disk.active == Some(j0.target) && w.disk.guard.None?
      ensures calm && Leftover(old(w).disk.guard, j0) ==> r == Done.Ok(j0.(phase := RecoveryFailed))
      ensures r.Ok? ==> r.value == j0.(phase := r.value.phase)
      ensures r.Ok? ==> r.value.phase in {Committed, TargetStartFailed, RolledBack, RecoveryFailed}
      ensures r.Ok? && j0.reset ==> r.value.phase in {Committed, TargetStartFailed}
      ensures r.Ok? && j0.reset && r.value.phase == Committed ==> w.disk.guard.None?
    {
      var started := StartAndCheck(j0.target, calm);
      if started == Err(Crashed) { return Err(Crashed); }
      if started.Ok? {
        r := Commit(j0, calm);
      } else if j0.deletionStarted {
        r := HoldTarget(j0, calm);
      } else {
        r := Restore(j0, calm);
      }
    }

    method Commit(j0: Journal, calm: bool) returns (r: Done)
      requires Sound(w) && w.disk.journal == Some(j0) && j0.phase == Starting && Gate(w.disk)
      requires w.running.None? || w.running == Some(j0.target)
      modifies this
      ensures Sound(w)
      ensures Onward(old(w), w)
      ensures r.Err? ==> FromOutside(r.error)
      ensures r.Ok? ==> w.disk.journal == Some(r.value)
      ensures calm ==> r == Done.Ok(j0.(phase := Committed))
      ensures calm ==> w.disk.active == Some(j0.target) && w.disk.guard.None?
      ensures r.Ok? ==> r.value == j0.(phase := Committed) && (j0.reset ==> w.disk.guard.None?)
    {
      var j := j0.(phase := Committed);
      var _ :- Persist(j, calm);
      if j.reset {
        var _ :- Guard(false, calm);
      }
      r := Ok(j);
    }

    // After deletion the old binary is never offered again; the target waits for a retry.
    method HoldTarget(j0: Journal, calm: bool) returns (r: Done)
      requires Sound(w) && w.disk.journal == Some(j0) && j0.phase == Starting && j0.deletionStarted
      modifies this
      ensures Sound(w)
      ensures Onward(old(w), w)
      ensures r.Err? ==> FromOutside(r.error)
      ensures r.Ok? ==> r.value == j0.(phase := TargetStartFailed) && w.disk.journal == Some(r.value)
    {
      var stopped := Stop(calm);
      if stopped == Err(Crashed) { return Err(Crashed); }
      var j := j0.(phase := TargetStartFailed);
      var _ :- Persist(j, calm);
      r := Ok(j);
    }

    method Finish(j0: Journal, calm: bool) returns (r: Done)
      requires Sound(w) && w.disk.journal == Some(j0) && ReadyToFinish(w, j0)
      modifies this
      ensures Sound(w)
      ensures Onward(old(w), w)
      ensures r.Err? ==> FromOutside(r.error)
      ensures r.Ok? ==> w.disk.journal == Some(r.value)
      ensures calm && !Leftover(old(w).disk.guard, j0) ==>
                && r == Done.Ok(j0.(phase := Committed, deletionStarted := j0.reset))
                && w.disk.active == Some(j0.target) && w.disk.guard.None?
      ensures calm && Leftover(old(w).disk.guard, j0) ==> r == Done.Ok(j0.(phase := RecoveryFailed))
      ensures r.Ok? ==> r.value.phase in {ResetFailed, Committed, TargetStartFailed, RolledBack, RecoveryFailed}
      ensures r.Ok? && j0.reset ==> r.value.deletionStarted
      ensures r.Ok? && j0.reset && r.value.phase == Committed ==> w.disk.guard.None?
    {
      var j := j0;
      if j.reset {
        j :- EmptyChain(j, calm);
        if j.phase == ResetFailed { return Ok(j); }
      }
      j :- SelectTarget(j, calm);
      r := StartTarget(j, calm);
    }

    // `recover`: forward past the point of no return, back before it. Its own
    // consistency checks never refuse. With a succeeding runtime and worker it ends
    // the transition exactly when no other transition's guard is in the way.
    method Recover(calm: bool) returns (r: Done)
      requires Sound(w)
      modifies this
      ensures Sound(w)
      ensures Onward(old(w), w)
      ensures r.Ok? ==> w.disk.journal == Some(r.value)
      ensures old(w).disk.journal.None? <==> r == Done.Err(NoJournal)
      ensures r.Err? ==> r.error == NoJournal || FromOutside(r.error)
      ensures r.Ok? && Terminal(old(w).disk.journal.value.phase) ==> r.value == old(w).disk.journal.value
      ensures calm && old(w).disk.journal.Some? ==>
                var j := old(w).disk.journal.value;
                && (r.Ok? && Terminal(r.value.phase) <==> Terminal(j.phase) || !Leftover(old(w).disk.guard, j))
                && (r.Ok? && Terminal(r.value.phase) ==>
                      && w.disk.guard.None?
                      && (j.deletionStarted ==>
                            r.value == j.(phase := Committed) && w.disk.active == Some(j.target))
                      && (!j.deletionStarted && !Terminal(j.phase) ==>
                            r.value == j.(phase := RolledBack) && w.disk.active == j.previous))
    {
      if w.disk.journal.None? { return Err(NoJournal); }
      var j := w.disk.journal.value;
      RecoveryNeverBlocksItself(w);
      if !JournalReadable(j) { return Err(Inconsistent); }
      if Terminal(j.phase) {
        if j.phase == Committed && j.reset {
          var _ :- Guard(false, calm);
        }
        return Ok(j);
      }
      if !Consistent(w.disk) { return Err(Inconsistent); }
      if j.deletionStarted {
        r := Resume(j, calm);
      } else {
        r := Restore(j, calm);
      }
    }

    // Recovery past the point of no return: guard and stop everything, then finish.
    method Resume(j: Journal, calm: bool) returns (r: Done)
      requires Sound(w) && w.disk.journal == Some(j) && j.deletionStarted && j.phase != Committed
      modifies this
      ensures Sound(w)
      ensures Onward(old(w), w)
      ensures r.Ok? ==> w.disk.journal == Some(r.value)
      ensures r.Err? ==> FromOutside(r.error)
      ensures calm ==> r == Done.Ok(j.(phase := Committed))
      ensures calm ==> w.disk.active == Some(j.target) && w.disk.guard.None?
    {
      var _ :- Trouble(Stale, calm);
      var _ :- Quiesce(j, calm);
      r := Finish(j, calm);
    }

    method Quiesce(j: Journal, calm: bool) returns (r: Status)
      requires Sound(w) && w.disk.journal == Some(j) && j.deletionStarted && j.phase != Committed
      modifies this
      ensures Sound(w)
      ensures Onward(old(w), w)
      ensures r.Ok? ==> w.disk.journal == Some(j)
      ensures r.Err? ==> FromOutside(r.error)
      ensures calm ==> r.Ok?
    {
      var _ :- Validate(calm);
      var _ :- Inhibited(calm);
      r := Stop(calm);
    }

    // `apply`: re-check the preview, prepare, journal, block, stop, finish.
    method Apply(p: Preview, calm: bool) returns (r: Done)
      requires Sound(w) && Reviewed(FirstJournal(p))
      modifies this
      ensures Sound(w)
      ensures Unfinished(old(w).disk) ==> r == Done.Err(NeedsRecovery) && w == old(w)
      ensures Entered(old(w), w, p)
      ensures r.Ok? ==> w.disk.journal == Some(r.value)
      ensures calm && !Unfinished(old(w).disk) && Current(old(w).disk, p) && old(w).disk.guard.None? ==>
                && r == Done.Ok(FirstJournal(p).(phase := Committed, deletionStarted := p.reset))
                && w.disk.active == Some(p.target) && w.disk.guard.None?
      ensures calm && !Unfinished(old(w).disk) && Current(old(w).disk, p) && old(w).disk.guard.Some? ==>
                !(r.Ok? && Terminal(r.value.phase)) && Unfinished(w.disk)
      ensures r.Ok? ==> r.value.previous == p.previous && r.value.target == p.target && r.value.reset == p.reset
      ensures r.Ok? && r.value.phase == StopFailed ==>
                && w.disk.active == p.previous && (p.reset ==> w.disk.guard.None?)
                && (p.previous.Some? && w.disk.guard.None? ==> Gate(w.disk))
      ensures r.Ok? && p.previous.Some? && !p.reset ==> Remembered(w.disk, p.previous.value)
    {
      hide Sound;
      if Unfinished(w.disk) { return Err(NeedsRecovery); }
      if !Current(w.disk, p) { return Err(Stale); }
      var _ :- Trouble(Stale, calm);
      var _ :- Prepare(p, calm);
      var j := FirstJournal(p);
      var _ :- Begin(p, calm);
      if j.reset {
        var _ :- Block(j, calm);
      }
      r := StopAndFinish(j, calm);
      if r.Ok? { AppliedIsKept(w, p); }
    }

    method StopAndFinish(j: Journal, calm: bool) returns (r: Done)
      requires Sound(w) && w.disk.journal == Some(j) && j.phase == Stopping && w.disk.active == j.previous
      requires j.reset ==> Ours(w.disk.guard, j)
      modifies this
      ensures Sound(w)
      ensures Onward(old(w), w)
      ensures r.Err? ==> FromOutside(r.error)
      ensures r.Ok? ==> w.disk.journal == Some(r.value)
      ensures calm && !Leftover(old(w).disk.guard, j) ==>
                && r == Done.Ok(j.(phase := Committed, deletionStarted := j.reset))
                && w.disk.active == Some(j.target) && w.disk.guard.None?
      ensures calm && Leftover(old(w).disk.guard, j) ==> r == Done.Ok(j.(phase := RecoveryFailed))
      ensures r.Ok? && r.value.phase == StopFailed ==>
                w.disk.active == j.previous && (j.reset ==> w.disk.guard.None?)
    {
      hide Sound;
      var stopped := Stop(calm);
      if stopped == Err(Crashed) { return Err(Crashed); }
      if stopped.Err? {
        r := StopFailure(j, calm);
      } else {
        r := Finish(j, calm);
      }
    }

    // Validate the scope of a reset, or mark the folder of a switch; remember the
    // previous profile.
    method Prepare(p: Preview, calm: bool) returns (r: Status)
      requires Sound(w) && Reviewed(FirstJournal(p)) && !Unfinished(w.disk) && Current(w.disk, p)
      modifies this
      ensures Sound(w)
      ensures Onward(old(w), w)
      ensures r.Err? ==> FromOutside(r.error)
      ensures r.Ok? ==> !Unfinished(w.disk) && Reviewable(w.disk, p) && w.disk.guard == old(w).disk.guard
      ensures r.Ok? ==> p.reset || MarkerIs(w.disk, p.target)
      ensures r.Ok? && p.previous.Some? ==> Remembered(w.disk, p.previous.value)
      ensures calm ==> r.Ok?
    {
      if p.reset {
        var _ :- Validate(calm);
      } else {
        var _ :- MarkTarget(p, calm);
      }
      r := RememberPrevious(p, calm);
    }

    method MarkTarget(p: Preview, calm: bool) returns (r: Status)
      requires Sound(w) && Reviewed(FirstJournal(p)) && !Unfinished(w.disk) && Current(w.disk, p) && !p.reset
      modifies this
      ensures Sound(w)
      ensures Onward(old(w), w)
      ensures r.Err? ==> FromOutside(r.error)
      ensures r.Ok? ==> w.disk == old(w).disk.(markers := old(w).disk.markers[p.target.Home() := p.target],
                                               entries := w.disk.entries)
      ensures calm ==> r.Ok?
    {
      r := Ok(());
      if p.target.Home() !in w.disk.markers {
        r := Write(w.disk.(markers := w.disk.markers[p.target.Home() := p.target]), calm);
      } else {
        assert old(w).disk.markers[p.target.Home() := p.target] == w.disk.markers;
      }
    }

    method RememberPrevious(p: Preview, calm: bool) returns (r: Status)
      requires Sound(w) && !Unfinished(w.disk) && w.disk.active == p.previous
      modifies this
      ensures Sound(w)
      ensures Onward(old(w), w)
      ensures r.Err? ==> FromOutside(r.error)
      ensures r.Ok? ==> w.disk == old(w).disk.(registry := w.disk.registry, entries := w.disk.entries)
      ensures r.Ok? && p.previous.Some? ==> Remembered(w.disk, p.previous.value)
      ensures calm ==> r.Ok?
    {
      r := Ok(());
      if p.previous.Some? {
        r := Write(Saved(w.disk, p.previous.value), calm);
      }
    }

    // The first journal of a transition; its history starts here.
    method Begin(p: Preview, calm: bool) returns (r: Status)
      requires Sound(w) && Reviewed(FirstJournal(p)) && !Unfinished(w.disk) && Reviewable(w.disk, p)
      requires p.reset || MarkerIs(w.disk, p.target)
      requires p.previous.Some? ==> Remembered(w.disk, p.previous.value)
      modifies this
      ensures Sound(w)
      ensures r.Err? ==> FromOutside(r.error)
      ensures r.Ok? ==> w.disk.journal == Some(FirstJournal(p)) && w.disk.guard == old(w).disk.guard
      ensures r.Ok? ==> w.disk.active == p.previous
      ensures r.Ok? && w.disk.guard.Some? ==> Leftover(w.disk.guard, FirstJournal(p))
      ensures Entered(old(w), w, p)
      ensures calm ==> r.Ok?
    {
      var _ :- Trouble(Crashed, calm);
      w := World(w.disk.(journal := Some(FirstJournal(p))), w.running, []);
      Background();
      r := Trouble(Crashed, calm);
    }

    method Block(j: Journal, calm: bool) returns (r: Status)
      requires Sound(w) && w.disk.journal == Some(j) && j.reset && j.phase == Stopping
      modifies this
      ensures Sound(w)
      ensures Onward(old(w), w)
      ensures r.Err? ==> FromOutside(r.error)
      ensures r.Ok? ==> w.disk.journal == Some(j) && Ours(w.disk.guard, j)
      ensures r.Ok? ==> w.disk.active == old(w).disk.active
      ensures calm ==> (r.Ok? <==> !Leftover(old(w).disk.guard, j))
      ensures calm && r.Err? ==> w.disk.journal == Some(j)
    {
      if Inhibit(w.disk).Ok? {
        InhibitKeepsSound(w);
      }
      if !Leftover(w.disk.guard, j) {
        InhibitAccepts(w);
      }
      r := Guard(true, calm);
    }

    method StopFailure(j0: Journal, calm: bool) returns (r: Done)
      requires Sound(w) && w.disk.journal == Some(j0) && j0.phase == Stopping
      requires j0.reset ==> Ours(w.disk.guard, j0)
      requires w.disk.active == j0.previous
      modifies this
      ensures Sound(w)
      ensures Onward(old(w), w)
      ensures r.Err? ==> FromOutside(r.error)
      ensures r.Ok? ==> r.value == j0.(phase := StopFailed) && w.disk.journal == Some(r.value)
      ensures r.Ok? ==> w.disk.active == j0.previous && (j0.reset ==> w.disk.guard.None?)
    {
      var j := j0.(phase := StopFailed);
      var _ :- Persist(j, calm);
      if j.reset {
        var _ :- Guard(false, calm);
      }
      r := Ok(j);
    }

    // One transition on a device without a guard file, the first apply included: an
    // apply cut off anywhere, then recoveries each of which may be cut off too, with
    // the environment in between. `found` is the journal the last recovery finds. With
    // a succeeding runtime and worker that recovery ends the transition: on the target
    // if deletion had started by then, rolled back on the previous selection if not,
    // and without a guard file in every case.
    method ApplyThenRecover(p: Preview, attempts: nat) returns (r: Done, ghost found: Option<Journal>)
      requires Sound(w) && Reviewed(FirstJournal(p)) && w.disk.guard.None?
      modifies this
      ensures Sound(w) && w.disk.guard.None?
      ensures found.None? ==> r == Done.Err(NoJournal) && w.disk.journal == old(w).disk.journal == None
      ensures found.Some? ==> r.Ok? && Terminal(r.value.phase) && w.disk.journal == Some(r.value)
      ensures found.Some? ==>
                || (found.value.previous == p.previous && found.value.target == p.target && found.value.reset == p.reset)
                || Same(old(w).disk.journal, found.value)
      ensures found.Some? && found.value.deletionStarted ==>
                r.value == found.value.(phase := Committed) && w.disk.active == Some(found.value.target)
      ensures found.Some? && !found.value.deletionStarted && !Terminal(found.value.phase) ==>
                r.value == found.value.(phase := RolledBack) && w.disk.active == found.value.previous
      ensures found.Some? && Terminal(found.value.phase) ==>
                && r.value == found.value
                && w.disk.active == if r.value.phase == Committed then Some(r.value.target) else r.value.previous
    {
      hide Sound, Leftover, Reviewed, Drifted, Entered, Onward;
      ghost var start := w;
      r := Apply(p, false);
      for n := 0 to attempts
        invariant Sound(w) && Entered(start, w, p)
      {
        ghost var before := w;
        var again: bool := *;
        if again { r := Recover(false); } else { Background(); }
        StillEntered(start, before, w, p);
      }
      found := w.disk.journal;
      NothingLeftOver(start, w, p);
      r := Recover(true);
      if w.disk.journal.Some? { FinishedIsSettled(w); } else { NoGuardWithoutJournal(w); }
    }

    // Any run of the appliance, of any length: reviews, applies of a review made
    // now or earlier, recoveries, and the environment, each operation cut off
    // anywhere. `steps` is arbitrary, so this is about every reachable moment.
    method Run(steps: nat)
      requires Sound(w)
      modifies this
      ensures Sound(w) && PreviousNeverReturns(w)
    {
      var pending: Option<Preview> := None;
      for n := 0 to steps
        invariant Sound(w)
        invariant pending.Some? ==> Reviewed(FirstJournal(pending.value))
      {
        var choice: int := *;
        if choice == 0 {
          var version: string, network: string, watchOnly: bool := *, *, *;
          var review := Review(w.disk, version, network, watchOnly);
          if review.Ok? {
            ReviewIsWellFormed(w, version, network, watchOnly);
            pending := Some(review.value);
          }
        } else if choice == 1 && pending.Some? {
          var _ := Apply(pending.value, false);
        } else if choice == 2 {
          var _ := Recover(false);
        } else {
          Background();
        }
      }
      forall i, j | 0 <= i < j < |w.history| && w.disk.journal.Some?
        ensures InOrder(w, i, j)
      {
        HistoryOrdered(w, i, j);
      }
      if !NoUnlinks(w.history) && Gate(w.disk) {
        GateAdmitsOnlyTarget(w);
      }
      if !NoUnlinks(w.history) && w.running.Some? {
        OnlyTargetRuns(w);
      }
    }
  }

  lemma UnlinkKeepsSound(w: World, e: Entry)
    requires Sound(w) && w.disk.journal.Some?
    requires var j := w.disk.journal.value;
      j.deletionStarted && (j.phase == Resetting || j.phase == ResetFailed) && e.home == j.target.Home()
    requires w.disk.guard.value.irreversible
    ensures Sound(w.(disk := w.disk.(entries := w.disk.entries - {e}),
                     history := w.history + [Unlinked(e, w.disk.journal.value, w.disk.guard)]))
  {
  }
}
