// The durable records of a version change and the three parties that read them:
// the journalled daemon (src/versions.rs), the root helper that keeps the reset
// guard (scripts/profile_helper.py) and the startup gate (scripts/node_ready.py).
module VersionModel {
  import opened Common

  // The folder that holds an instance's chain data. The directory name is the
  // registered data identity, which a version change keeps.
  datatype Folder = Folder(network: string, name: string)

  // A registered instance. The rest of a `Selection` (binary path, digest, policy
  // file) is a function of the instance, so a selection is its instance here.
  datatype Instance = Instance(version: string, network: string, watchOnly: bool, dataId: Option<string>)
  {
    function Name(): string {
      match dataId
      case Some(id) => id
      case None => if watchOnly then version + "-watch-only" else version
    }

    function Home(): Folder { Folder(network, Name()) }
  }

  datatype Phase =
    | Stopping | StopFailed | Resetting | ResetFailed | Activating | Starting | TargetStartFailed
    | Committed | Recovering | RestoringPrevious | RolledBack | RecoveryFailed

  datatype Journal = Journal(phase: Phase, previous: Option<Instance>, target: Instance,
                             reset: bool, deletionStarted: bool)

  // The root-owned reset guard, bound to the transition that created it.
  datatype Guard = Guard(previous: Instance, target: Instance, irreversible: bool, targetReady: bool)

  // One allowlisted chain or index entry in an instance's folder.
  datatype Entry = Entry(home: Folder, name: string)

  // Everything that survives a crash. `profile` is the rendered service
  // configuration (None while it is being rewritten), `ready` the node-ready
  // registration, `registry` the saved instance per network and mode.
  datatype Disk = Disk(
    journal: Option<Journal>,
    active: Option<Instance>,
    markers: map<Folder, Instance>,
    guard: Option<Guard>,
    profile: Option<Instance>,
    ready: Option<Instance>,
    registry: map<(string, bool), Instance>,
    entries: set<Entry>)

  // What happened since the current transition was journalled. An unlink records
  // the durable state it was done under, a start the chain entries it found.
  datatype Event =
    | Started(instance: Instance, chain: set<Entry>)
    | Created(entry: Entry, writer: Instance)
    | Unlinked(entry: Entry, journal: Journal, guard: Option<Guard>)
    | SeenEmpty(home: Folder)

  datatype World = World(disk: Disk, running: Option<Instance>, history: seq<Event>)

  datatype Why =
    | Crashed          // the daemon died, or a durable step reported an error, part-way
    | RuntimeFailed    // stop, start or health check failed
    | WorkerFailed     // the chain storage worker refused or failed
    | GuardRefused     // the root helper refused to set or release the guard
    | Stale            // the preview no longer matches the device, or cannot be made
    | NeedsRecovery    // an earlier transition needs recovery first
    | NoJournal
    | Inconsistent     // recover found records its own protocol did not write

  function Chain(d: Disk, home: Folder): set<Entry> {
    set e | e in d.entries && e.home == home
  }

  predicate Terminal(p: Phase) { p == Committed || p == RolledBack }

  predicate DeletionPhase(p: Phase) {
    p == Resetting || p == ResetFailed || p == Activating || p == Starting
    || p == TargetStartFailed || p == Committed
  }

  // The consistency check every reader of the journal applies first.
  predicate JournalReadable(j: Journal) {
    j.deletionStarted ==> j.reset && DeletionPhase(j.phase)
  }

  predicate Unfinished(d: Disk) {
    d.journal.Some? && !Terminal(d.journal.value.phase)
  }

  predicate MarkerIs(d: Disk, i: Instance) {
    i.Home() in d.markers && d.markers[i.Home()] == i
  }

  // ---------------------------------------------------------------- node_ready

  predicate JournalAllows(d: Disk) {
    d.journal.Some? ==>
      var j := d.journal.value;
      j.reset ==>
        || j.phase == Starting || j.phase == Committed || j.phase == RolledBack || j.phase == StopFailed
        || (j.phase == RestoringPrevious && !j.deletionStarted)
  }

  predicate GuardAllows(d: Disk) {
    d.guard.Some? ==>
      && d.guard.value.targetReady
      && d.journal.Some?
      && (d.journal.value.phase == Starting || d.journal.value.phase == Committed)
      && d.active == Some(d.guard.value.target)
  }

  predicate Registered(d: Disk) {
    && d.ready.Some?
    && d.active == d.ready
    && d.profile == d.ready
    && MarkerIs(d, d.ready.value)
  }

  // The startup gate: every start of a node service consults it.
  predicate Gate(d: Disk) {
    JournalAllows(d) && GuardAllows(d) && Registered(d)
  }

  // ------------------------------------------------------------ profile_helper

  // `inhibit`: the guard record the root helper writes, or its refusal.
  function Inhibit(d: Disk): Result<Guard, Why> {
    if d.journal.None? || d.journal.value.previous.None? then Err(GuardRefused) else
    var j := d.journal.value;
    var previous, target := j.previous.value, j.target;
    if !j.reset || previous.version == target.version then Err(GuardRefused)
    else if previous.Home() != target.Home() || previous.watchOnly != target.watchOnly then Err(GuardRefused)
    else if d.ready != Some(previous) && d.ready != Some(target) then Err(GuardRefused)
    else if d.guard.Some? && (d.guard.value.previous != previous || d.guard.value.target != target) then
      Err(GuardRefused)
    else
      var saved := if d.guard.Some? then d.guard.value else Guard(previous, target, false, false);
      var marked := if j.phase == Resetting || j.phase == ResetFailed then saved.(irreversible := true) else saved;
      if j.phase == Activating && !marked.targetReady then
        if !marked.irreversible || Chain(d, target.Home()) != {} then Err(GuardRefused)
        else Ok(marked.(targetReady := true))
      else Ok(marked)
  }

  // `release`: whether the root helper removes the guard file.
  function Release(d: Disk): Result<(), Why> {
    if d.journal.None? then Err(GuardRefused) else
    var j := d.journal.value;
    if j.phase != Committed
       && (j.deletionStarted || !(j.phase == StopFailed || j.phase == Recovering || j.phase == RolledBack)) then
      Err(GuardRefused)
    else if d.guard.Some? && d.guard.value.irreversible
            && (j.phase != Committed || !d.guard.value.targetReady || d.active != Some(d.guard.value.target)) then
      Err(GuardRefused)
    else Ok(())
  }

  // The folder of an instance that keeps no older one's is its own: no other version,
  // network or mode has it. A version is written with digits and points.
  lemma FoldersApart(a: Instance, b: Instance)
    requires a.dataId.None? && b.dataId.None?
    requires forall c :: c in a.version + b.version ==> '0' <= c <= '9' || c == '.'
    ensures a.Home() == b.Home() <==> a == b
  {
    NoMode(a.version, b.version);
    assert forall c :: c in b.version + a.version ==> c in a.version + b.version;
    NoMode(b.version, a.version);
    SameVersion(a.version, b.version);
  }

  lemma NoMode(v: string, u: string)
    requires forall c :: c in v + u ==> '0' <= c <= '9' || c == '.'
    ensures v + "-watch-only" != u
  {
    var full := v + "-watch-only";
    assert full[|v|] == "-watch-only"[0] == '-';
    assert forall i :: 0 <= i < |u| ==> u[i] in v + u;
  }

  lemma SameVersion(v: string, u: string)
    ensures v + "-watch-only" == u + "-watch-only" ==> v == u
  {
    if v + "-watch-only" == u + "-watch-only" {
      assert (v + "-watch-only")[..|v|] == v && (u + "-watch-only")[..|u|] == u;
    }
  }

  // Whatever the daemon wrote, the helper sets the guard only for a change of version in
  // one folder, from or to the registered instance, and never over another transition's;
  // it marks the target ready only once the chain is gone under an irreversible guard.
  lemma HelperInhibits(d: Disk)
    ensures Inhibit(d).Ok? <==>
      && d.journal.Some? && d.journal.value.previous.Some? && d.journal.value.reset
      && var j, previous, target := d.journal.value, d.journal.value.previous.value, d.journal.value.target;
         && previous.version != target.version
         && (previous.network, previous.Name(), previous.watchOnly) == (target.network, target.Name(), target.watchOnly)
         && d.ready in {Some(previous), Some(target)}
         && (d.guard.Some? ==> (d.guard.value.previous, d.guard.value.target) == (previous, target))
         && (j.phase == Activating && !(d.guard.Some? && d.guard.value.targetReady) ==>
               && d.guard.Some? && d.guard.value.irreversible
               && forall e :: e in d.entries ==> e.home != target.Home())
    ensures Inhibit(d).Ok? ==>
      var g, j := Inhibit(d).value, d.journal.value;
      && Some(g.previous) == j.previous && g.target == j.target
      && (g.irreversible <==> (d.guard.Some? && d.guard.value.irreversible) || j.phase in {Resetting, ResetFailed})
      && (g.targetReady <==> (d.guard.Some? && d.guard.value.targetReady) || j.phase == Activating)
  {
    if d.journal.Some? { NoChain(d, d.journal.value.target.Home()); }
    hide Chain;
  }

  lemma NoChain(d: Disk, home: Folder)
    ensures Chain(d, home) == {} <==> forall e :: e in d.entries ==> e.home != home
  {
    if Chain(d, home) == {} {
      forall e | e in d.entries ensures e.home != home { assert e !in Chain(d, home); }
    }
  }

  // It releases the guard only after a commit or before the deletion started, and an
  // irreversible one only with the finished target selected.
  lemma HelperReleases(d: Disk)
    ensures Release(d).Ok? <==>
      && d.journal.Some?
      && var j := d.journal.value;
         && (j.phase == Committed || (!j.deletionStarted && j.phase in {StopFailed, Recovering, RolledBack}))
         && (d.guard.Some? && d.guard.value.irreversible ==>
               j.phase == Committed && d.guard.value.targetReady && d.active == Some(d.guard.value.target))
  {
  }

  // The gate is open exactly for the registered, configured and marked selection, outside
  // the closed phases of a reset, and under a guard only for its finished target.
  lemma GateOpens(d: Disk)
    ensures Gate(d) <==>
      && d.active.Some? && d.active == d.ready == d.profile && MarkerIs(d, d.active.value)
      && (d.journal.Some? && d.journal.value.reset ==>
            || d.journal.value.phase in {Starting, Committed, RolledBack, StopFailed}
            || (d.journal.value.phase == RestoringPrevious && !d.journal.value.deletionStarted))
      && (d.guard.Some? ==>
            && d.guard.value.targetReady && d.active == Some(d.guard.value.target)
            && d.journal.Some? && d.journal.value.phase in {Starting, Committed})
  {
  }

  // --------------------------------------------------------------- environment

  // What the device does on its own between two steps of the daemon: a service
  // start attempt, a service death or reboot, and a running Core writing its chain.
  datatype Choice = StartCore | StopCore | WriteChain(name: string)

  function Environment(w: World, c: Choice): World {
    match c
    case StartCore =>
      if w.running.None? && Gate(w.disk) then
        var i := w.disk.ready.value;
        w.(running := Some(i), history := w.history + [Started(i, Chain(w.disk, i.Home()))])
      else w
    case StopCore => w.(running := None)
    case WriteChain(name) =>
      if w.running.Some? then
        var e := Entry(w.running.value.Home(), name);
        w.(disk := w.disk.(entries := w.disk.entries + {e}),
           history := w.history + [Created(e, w.running.value)])
      else w
  }

  function Drive(w: World, cs: seq<Choice>): World
    decreases |cs|
  {
    if cs == [] then w else Drive(Environment(w, cs[0]), cs[1..])
  }

  // ----------------------------------------------------------------- invariant

  ghost predicate NoStarts(h: seq<Event>) {
    forall i :: 0 <= i < |h| ==> !h[i].Started?
  }

  ghost predicate NoUnlinks(h: seq<Event>) {
    forall i :: 0 <= i < |h| ==> !h[i].Unlinked?
  }

  ghost predicate NothingFrom(h: seq<Event>, writer: Instance) {
    forall i :: 0 <= i < |h| && h[i].Created? ==> h[i].writer != writer
  }

  // Every unlink was done under a journal past the point of no return and an
  // irreversible guard of this transition, inside the reviewed folder.
  ghost predicate UnlinksCovered(h: seq<Event>, target: Instance) {
    forall i :: 0 <= i < |h| && h[i].Unlinked? ==>
      && h[i].entry.home == target.Home()
      && h[i].journal.deletionStarted && h[i].journal.target == target
      && (h[i].journal.phase == Resetting || h[i].journal.phase == ResetFailed)
      && h[i].guard.Some? && h[i].guard.value.irreversible && h[i].guard.value.target == target
  }

  // At index k the whole allowlist was seen empty: before it nothing was started
  // and the target wrote nothing, after it nothing is unlinked and only the target
  // runs, first on an empty chain.
  ghost predicate Turning(h: seq<Event>, k: nat, target: Instance) {
    && k < |h|
    && h[k] == SeenEmpty(target.Home())
    && NoStarts(h[..k])
    && NothingFrom(h[..k], target)
    && (forall i :: k < i < |h| ==> !h[i].Unlinked?)
    && (forall i :: k < i < |h| && h[i].Started? ==>
          h[i].instance == target && (h[i].chain == {} || !NoStarts(h[..i])))
    && (forall i :: k < i < |h| && h[i].Created? ==> h[i].writer == target)
  }

  ghost predicate Ours(g: Option<Guard>, j: Journal) {
    g.Some? && j.previous.Some? && g.value.previous == j.previous.value && g.value.target == j.target
  }

  // A guard left behind by an earlier committed reset, whose release was cut off.
  ghost predicate Leftover(g: Option<Guard>, j: Journal) {
    && g.Some? && j.previous.Some?
    && g.value.target == j.previous.value && g.value.irreversible && g.value.targetReady
  }

  // The shape every journal the daemon writes has.
  ghost predicate Reviewed(j: Journal) {
    && JournalReadable(j)
    && (j.reset ==>
          && j.previous.Some?
          && j.target == j.previous.value.(version := j.target.version, dataId := Some(j.previous.value.Name()))
          && j.target.version != j.previous.value.version)
    && (!j.reset && j.previous.Some? ==>
          (j.target.network, j.target.watchOnly) != (j.previous.value.network, j.previous.value.watchOnly))
  }

  // Before anything but the journal and the guard is written, and after the end.
  predicate AtRest(d: Disk, j: Journal) {
    Terminal(j.phase) || j.phase == StopFailed || (j.phase == Stopping && d.active == j.previous)
  }

  // A switch of network or mode: nothing is deleted, both profiles stay marked.
  ghost predicate SwitchSound(w: World, j: Journal) {
    var d := w.disk;
    && !j.deletionStarted
    && j.phase != Resetting && j.phase != ResetFailed && j.phase != Activating && j.phase != TargetStartFailed
    && MarkerIs(d, j.target)
    && (j.previous.Some? ==> MarkerIs(d, j.previous.value) && Remembered(d, j.previous.value))
    && (d.active == j.previous || d.active == Some(j.target))
    && (j.phase == StopFailed || j.phase == RolledBack ==> d.active == j.previous)
    && (j.phase == RestoringPrevious || j.phase == RecoveryFailed ==> d.active == j.previous && j.previous.Some?)
    && (j.phase == Starting || j.phase == Committed ==> d.active == Some(j.target) && Remembered(d, j.target))
    && (d.guard.None? || Leftover(d.guard, j))
    && (Terminal(j.phase) ==> d.guard.None? && (d.active.Some? ==> w.running == None || w.running == d.active))
    && NoUnlinks(w.history)
  }

  // A reset before its point of no return: the previous profile is intact.
  ghost predicate ReversibleSound(w: World, j: Journal)
    requires j.previous.Some?
  {
    var d, previous := w.disk, j.previous.value;
    && (j.phase == Stopping || j.phase == StopFailed || j.phase == Recovering || j.phase == RestoringPrevious
        || j.phase == RolledBack || j.phase == RecoveryFailed)
    && MarkerIs(d, previous) && Remembered(d, previous)
    && d.active == j.previous && d.ready == j.previous
    && (d.guard.None? || Leftover(d.guard, j)
        || (Ours(d.guard, j) && !d.guard.value.irreversible && !d.guard.value.targetReady))
    && (Leftover(d.guard, j) ==> j.phase == Stopping || j.phase == Recovering)
    && (j.phase == RestoringPrevious || j.phase == RolledBack || j.phase == RecoveryFailed ==> d.guard.None?)
    && (w.running == None || w.running == j.previous)
    && NoUnlinks(w.history) && NothingFrom(w.history, j.target)
    && (j.phase == Stopping ==> NoStarts(w.history))
  }

  // A reset past its point of no return, before the allowlist was seen empty.
  ghost predicate DeletingSound(w: World, j: Journal)
    requires j.previous.Some?
  {
    var d := w.disk;
    && w.running.None?
    && NoStarts(w.history) && NothingFrom(w.history, j.target)
    && MarkerIs(d, j.previous.value) && Remembered(d, j.previous.value)
    && d.active == j.previous && d.ready == j.previous
    && d.guard.Some? && !d.guard.value.targetReady
    && (j.phase != Resetting || !NoUnlinks(w.history) ==> d.guard.value.irreversible)
    && (j.phase == Activating ==> Chain(d, j.target.Home()) == {})
  }

  // A reset after the allowlist was seen empty.
  ghost predicate EmptiedSound(w: World, j: Journal)
    requires j.previous.Some?
  {
    var d := w.disk;
    && (exists k: nat :: Turning(w.history, k, j.target))
    && (NoStarts(w.history) ==> Chain(d, j.target.Home()) == {} && w.running.None?)
    && if j.phase == Activating then
         && w.running.None? && NoStarts(w.history)
         && (MarkerIs(d, j.previous.value) || MarkerIs(d, j.target))
         && (d.active == j.previous || d.active == Some(j.target))
         && (d.active == Some(j.target) ==> MarkerIs(d, j.target))
         && d.ready == j.previous
       else
         && (w.running.None? || w.running == Some(j.target))
         && MarkerIs(d, j.target)
         && d.active == Some(j.target)
         && (d.ready == j.previous || d.ready == Some(j.target))
         && Remembered(d, j.target)
  }

  ghost predicate IrreversibleSound(w: World, j: Journal)
    requires j.previous.Some?
  {
    var d := w.disk;
    && UnlinksCovered(w.history, j.target)
    && (d.guard.None? ==> j.phase == Committed)
    && (d.guard.Some? ==> Ours(d.guard, j))
    && if j.phase == Resetting || j.phase == ResetFailed then DeletingSound(w, j)
       else if j.phase == Activating && d.guard.Some? && !d.guard.value.targetReady then DeletingSound(w, j)
       else (d.guard.Some? ==> d.guard.value.irreversible && d.guard.value.targetReady) && EmptiedSound(w, j)
  }

  ghost predicate Remembered(d: Disk, i: Instance) {
    (i.network, i.watchOnly) in d.registry && d.registry[(i.network, i.watchOnly)] == i
  }

  ghost predicate RegistrySound(d: Disk) {
    forall k :: k in d.registry ==> (d.registry[k].network, d.registry[k].watchOnly) == k
  }

  // What holds at every moment of every run.
  ghost predicate Sound(w: World) {
    && RegistrySound(w.disk)
    && match w.disk.journal
       case None =>
         && w.disk.active.None? && w.disk.guard.None? && w.disk.ready.None?
         && w.running.None? && w.history == []
       case Some(j) =>
         && Reviewed(j)
         && (AtRest(w.disk, j) && w.disk.active.Some? ==> Registered(w.disk))
         && if !j.reset then SwitchSound(w, j)
            else if !j.deletionStarted then ReversibleSound(w, j)
            else IrreversibleSound(w, j)
  }

  // ---------------------------------------------------- what Sound has to offer

  // Any unlink implies an irreversible guard; an irreversible guard implies a journal
  // past the point of no return, or is left over from an earlier committed reset; a
  // ready target implies an irreversible guard.
  lemma PointOfNoReturn(w: World)
    requires Sound(w)
    ensures !NoUnlinks(w.history) ==> w.disk.journal.Some? && w.disk.journal.value.deletionStarted
    ensures !NoUnlinks(w.history) && w.disk.guard.Some? ==> w.disk.guard.value.irreversible
    ensures w.disk.guard.Some? && w.disk.guard.value.irreversible ==>
              w.disk.journal.Some? && (w.disk.journal.value.deletionStarted || Leftover(w.disk.guard, w.disk.journal.value))
    ensures w.disk.guard.Some? && w.disk.guard.value.targetReady ==> w.disk.guard.value.irreversible
    ensures forall i :: 0 <= i < |w.history| && w.history[i].Unlinked? ==>
              && w.history[i].journal.deletionStarted
              && w.history[i].guard.Some? && w.history[i].guard.value.irreversible
              && w.history[i].entry.home == w.disk.journal.value.target.Home()
  {
    if !NoUnlinks(w.history) {
      var i :| 0 <= i < |w.history| && w.history[i].Unlinked?;
    }
  }

  // From the first unlink on, the gate passes only for the target, and only after
  // the whole allowlist was seen empty with nothing unlinked since.
  lemma GateAdmitsOnlyTarget(w: World)
    requires Sound(w) && !NoUnlinks(w.history) && Gate(w.disk)
    ensures w.disk.journal.Some? && w.disk.active == Some(w.disk.journal.value.target)
    ensures w.disk.ready == w.disk.active
    ensures exists k: nat :: Turning(w.history, k, w.disk.journal.value.target)
  {
    var i :| 0 <= i < |w.history| && w.history[i].Unlinked?;
  }

  // The order two events must have: after an unlink only the target starts, with the
  // allowlist seen empty in between, and the first such start finds an empty chain;
  // after a start, or an entry written by the target, nothing is unlinked.
  ghost predicate InOrder(w: World, i: nat, j: nat)
    requires i < j < |w.history| && w.disk.journal.Some?
  {
    var target, first, second := w.disk.journal.value.target, w.history[i], w.history[j];
    && (first.Unlinked? && second.Started? ==>
          && second.instance == target
          && (second.chain == {} || !NoStarts(w.history[..j]))
          && exists k :: i < k < j && w.history[k] == SeenEmpty(target.Home()))
    && (first.Started? || (first.Created? && first.writer == target) ==> !second.Unlinked?)
  }

  // Once anything was unlinked, the previous binary never runs again: it has not
  // been started since, and the gate would not let it be.
  ghost predicate PreviousNeverReturns(w: World) {
    && (forall i, j :: 0 <= i < j < |w.history| && w.disk.journal.Some? ==> InOrder(w, i, j))
    && (!NoUnlinks(w.history) && Gate(w.disk) ==>
          w.disk.journal.Some? && w.disk.ready == Some(w.disk.journal.value.target))
    && (!NoUnlinks(w.history) && w.running.Some? ==>
          w.disk.journal.Some? && w.running == Some(w.disk.journal.value.target))
  }

  lemma OnlyTargetRuns(w: World)
    requires Sound(w) && !NoUnlinks(w.history) && w.running.Some?
    ensures w.disk.journal.Some? && w.running == Some(w.disk.journal.value.target)
  {
    var i :| 0 <= i < |w.history| && w.history[i].Unlinked?;
  }

  lemma HistoryOrdered(w: World, i: nat, j: nat)
    requires Sound(w) && i < j < |w.history| && w.disk.journal.Some?
    ensures InOrder(w, i, j)
  {
    var journal, h := w.disk.journal.value, w.history;
    if journal.deletionStarted && (exists k: nat :: Turning(h, k, journal.target)) {
      var k: nat :| Turning(h, k, journal.target);
      assert i < k ==> h[..k][i] == h[i];
      assert j < k ==> h[..k][j] == h[j];
    }
  }

  // A finished transition, and one whose services would not stop, leaves the selected
  // profile configured, registered and marked, and once no guard is left the gate lets
  // its services start; a finished one does so in any case.
  lemma FinishedIsConfigured(w: World)
    requires Sound(w) && w.disk.journal.Some? && w.disk.active.Some?
    requires Terminal(w.disk.journal.value.phase) || w.disk.journal.value.phase == StopFailed
    ensures w.disk.profile == w.disk.ready == w.disk.active && MarkerIs(w.disk, w.disk.active.value)
    ensures Terminal(w.disk.journal.value.phase) || w.disk.guard.None? ==> Gate(w.disk)
  {
  }

  // The checks recover makes before it touches anything.
  predicate Consistent(d: Disk) {
    d.journal.Some? ==>
      var j := d.journal.value;
      && (d.active == j.previous || d.active == Some(j.target))
      && (j.deletionStarted ==>
            && j.previous.Some?
            && j.target.Home() == j.previous.value.Home()
            && j.target.network == j.previous.value.network
            && j.target.watchOnly == j.previous.value.watchOnly
            && j.target.Home() in d.markers
            && MarkerFits(j, d.markers[j.target.Home()]))
  }

  // The phase table recover holds the instance marker against.
  predicate MarkerFits(j: Journal, marker: Instance) {
    match j.phase
    case Resetting => j.previous == Some(marker)
    case ResetFailed => j.previous == Some(marker)
    case Activating => j.previous == Some(marker) || marker == j.target
    case Starting => marker == j.target
    case TargetStartFailed => marker == j.target
    case Committed => marker == j.target
    case _ => false
  }

  // None of recover's refusals can be triggered by what the protocol itself wrote.
  lemma RecoveryNeverBlocksItself(w: World)
    requires Sound(w)
    ensures w.disk.journal.Some? ==> JournalReadable(w.disk.journal.value)
    ensures Consistent(w.disk)
  {
  }

  // ------------------------------------------------- the environment keeps Sound

  lemma TurningExtends(h: seq<Event>, k: nat, target: Instance, e: Event)
    requires Turning(h, k, target)
    requires !e.Unlinked?
    requires e.Started? ==> e.instance == target && (e.chain == {} || !NoStarts(h))
    requires e.Created? ==> e.writer == target
    ensures Turning(h + [e], k, target)
  {
    var g := h + [e];
    assert g[..k] == h[..k];
    forall i | k < i < |g| && g[i].Started?
      ensures g[i].instance == target && (g[i].chain == {} || !NoStarts(g[..i]))
    {
      if i < |h| {
        assert g[..i] == h[..i];
      } else {
        assert g[..i] == h;
      }
    }
  }

  lemma EnvironmentKeepsSound(w: World, c: Choice)
    requires Sound(w)
    ensures Sound(Environment(w, c))
  {
    var w' := Environment(w, c);
    if w'.history != w.history {
      var e := w'.history[|w.history|];
      assert w'.history == w.history + [e];
      EventKeepsSound(w, w', e);
    }
  }

  lemma EventKeepsSound(w: World, w': World, e: Event)
    requires Sound(w) && w.disk.journal.Some?
    requires w'.disk == w.disk.(entries := w'.disk.entries) && w'.history == w.history + [e]
    requires
      || (e.Started? && w.running.None? && Gate(w.disk) && w'.running == w.disk.ready && w'.disk == w.disk
          && Some(e.instance) == w.disk.ready && e.chain == Chain(w.disk, e.instance.Home()))
      || (e.Created? && w'.running == w.running == Some(e.writer))
    ensures Sound(w')
  {
    var j := w.disk.journal.value;
    if j.deletionStarted && (exists k: nat :: Turning(w.history, k, j.target)) {
      var k: nat :| Turning(w.history, k, j.target);
      TurningExtends(w.history, k, j.target, e);
      if e.Created? {
        NotNoStartsExtends(w.history, e);
      } else {
        assert w'.history[|w.history|].Started?;
      }
    }
  }

  lemma NotNoStartsExtends(h: seq<Event>, e: Event)
    requires !NoStarts(h)
    ensures !NoStarts(h + [e])
  {
    var i :| 0 <= i < |h| && h[i].Started?;
    assert (h + [e])[i].Started?;
  }

  // ---------------------------------------------------- runs of the environment

  // What can have changed when only the environment acted after `w`: it writes chain
  // entries and nothing else on the disk, and runs only what is running already or
  // what the gate lets through; with the gate shut and nothing running, nothing.
  ghost predicate Drifted(w: World, later: World) {
    && later.disk == w.disk.(entries := later.disk.entries)
    && w.disk.entries <= later.disk.entries
    && w.history <= later.history
    && (later.running.None? || later.running == w.running || (Gate(w.disk) && later.running == w.disk.ready))
    && (w.running.None? && !Gate(w.disk) ==> later == w)
  }

  // The same transition, not taken back past the point of no return, and with no
  // leftover guard that was not there.
  ghost predicate Onward(w: World, later: World) {
    match w.disk.journal
    case None => later.disk.journal.None? && later.disk.guard == w.disk.guard
    case Some(j) =>
      && later.disk.journal.Some?
      && var j' := later.disk.journal.value;
         && j'.previous == j.previous && j'.target == j.target && j'.reset == j.reset
         && (j.deletionStarted ==> j'.deletionStarted)
         && (Leftover(later.disk.guard, j') ==> Leftover(w.disk.guard, j))
  }

  lemma {:induction false} DriveKeepsSound(w: World, cs: seq<Choice>)
    requires Sound(w)
    ensures Sound(Drive(w, cs))
    decreases |cs|
  {
    if cs != [] {
      EnvironmentKeepsSound(w, cs[0]);
      DriveKeepsSound(Environment(w, cs[0]), cs[1..]);
    }
  }

  lemma {:induction false} DriveDrifts(w: World, cs: seq<Choice>)
    ensures Drifted(w, Drive(w, cs))
    decreases |cs|
  {
    if cs != [] {
      DriveDrifts(Environment(w, cs[0]), cs[1..]);
    }
  }
}
