// The operation lock: for every request that changes something, the policy, version and
// backup services take it, and only then look at the durable journals. The backup
// service also recovers an unfinished restore when it is started again, and does that
// without the lock and without looking. One step of one service at a time, in any order,
// with a crash of any service between any two steps.
module OperationLock {
  import opened Common
  import T = PolicyTransaction
  import V = VersionModel

  // A managed configuration file, with its journal beside it.
  type Profile = string

  datatype Service = PolicyService | VersionService | BackupService

  datatype Task =
    | PolicyApply
    | PolicyRecover
    | VersionApply(previous: Option<Profile>, target: Profile)
    | VersionRecover
    | Backup

  // Down and Recovering are the backup service's alone: crashed and not yet started
  // again, and recovering an unfinished restore as it starts.
  datatype Stage = Idle | Asked(task: Task) | Locked(task: Task) | Working(task: Task) | Down | Recovering

  // An unfinished restore, with the selection it was begun under.
  datatype Restore = Restore(active: Option<Profile>)

  datatype Transition = Transition(phase: V.Phase, previous: Option<Profile>, target: Profile)

  // A task that passed its checks, and what the journals said at that moment.
  datatype Begun = Begun(task: Task, policyPending: bool, versionPending: bool)

  // Durable: the policy journals, the version journal, the selected and the configured
  // profile, and the journal of an unfinished restore. Volatile: the services, the profile
  // the policy service has loaded, and the lock, which the kernel frees when its holder dies.
  datatype System = System(
    policies: map<Profile, T.Phase>, version: Option<Transition>,
    active: Option<Profile>, profile: Option<Profile>, loaded: Option<Profile>,
    policyStage: Stage, versionStage: Stage, backupStage: Stage,
    restore: Option<Restore>, holder: Option<Service>, begun: seq<Begun>)

  datatype Action =
    | Ask(task: Task)
    | Take(service: Service)
    | Check(service: Service)
    | PolicyWrite(policyPhase: T.Phase)
    | VersionWrite(phase: V.Phase)
    | Select(selection: Option<Profile>)
    | Activate(chosen: Profile)
    | Reload
    | RestoreWrite(unfinished: bool)
    | Finish(service: Service)
    | Crash(service: Service)
    | Restart
    | Recovered

  function ServiceOf(t: Task): Service {
    match t
    case PolicyApply => PolicyService
    case PolicyRecover => PolicyService
    case VersionApply(_, _) => VersionService
    case VersionRecover => VersionService
    case Backup => BackupService
  }

  function StageOf(s: System, service: Service): Stage {
    match service
    case PolicyService => s.policyStage
    case VersionService => s.versionStage
    case BackupService => s.backupStage
  }

  function AtStage(s: System, service: Service, stage: Stage): System {
    match service
    case PolicyService => s.(policyStage := stage)
    case VersionService => s.(versionStage := stage)
    case BackupService => s.(backupStage := stage)
  }

  predicate PolicyPending(s: System, p: Option<Profile>) {
    p.Some? && p.value in s.policies && !T.Terminal(s.policies[p.value])
  }

  predicate VersionPending(s: System) {
    s.version.Some? && !V.Terminal(s.version.value.phase)
  }

  // What each service checks once it holds the lock.
  predicate Allowed(s: System, t: Task) {
    match t
    case PolicyApply => !VersionPending(s) && s.loaded.Some? && s.loaded == s.profile && !PolicyPending(s, s.profile)
    case PolicyRecover => !VersionPending(s) && s.loaded.Some? && s.loaded == s.profile
    case VersionApply(previous, target) =>
      !VersionPending(s) && s.active == previous && !PolicyPending(s, previous) && !PolicyPending(s, Some(target))
    case VersionRecover => VersionPending(s)
    case Backup => !VersionPending(s) && !PolicyPending(s, s.profile)
  }

  function Leave(s: System, service: Service): System {
    AtStage(s, service, Idle).(holder := if s.holder == Some(service) then None else s.holder)
  }

  // The transition a working version service writes about.
  function Subject(s: System): Option<Transition> {
    match s.versionStage
    case Working(VersionApply(previous, target)) => Some(Transition(V.Stopping, previous, target))
    case Working(VersionRecover) => if VersionPending(s) then s.version else None
    case _ => None
  }

  // A terminal phase is only written when the configured profile is the selected one:
  // FinishedIsConfigured of VersionModel, which holds on every run of the version
  // protocol, at the moment such a phase becomes durable.
  predicate MayWrite(s: System, phase: V.Phase) {
    Subject(s).Some? && (V.Terminal(phase) && s.active.Some? ==> s.profile == s.active)
  }

  // `quiesce`: the policy and the version service are stopped.
  function Quiesced(s: System): System {
    Leave(Leave(s, PolicyService), VersionService)
  }

  // The backup service is started again. An unfinished restore stops the other services
  // and is recovered, refused only when another selection is active than it began under.
  function Restarted(s: System): System {
    if s.restore.None? then AtStage(s, BackupService, Idle)
    else if s.active.Some? && s.active == s.restore.value.active then AtStage(Quiesced(s), BackupService, Recovering)
    else Quiesced(s)
  }

  // A step that is not possible leaves everything as it is.
  function Act(s: System, a: Action): System {
    match a
    case Ask(task) =>
      if StageOf(s, ServiceOf(task)).Idle? && !s.backupStage.Recovering? then
        AtStage(s, ServiceOf(task), Asked(task))
      else s
    case Take(service) =>
      if StageOf(s, service).Asked? && s.holder.None? then
        AtStage(s, service, Locked(StageOf(s, service).task)).(holder := Some(service))
      else s
    case Check(service) =>
      if !StageOf(s, service).Locked? then s
      else
        var task := StageOf(s, service).task;
        if Allowed(s, task) then
          AtStage(s, service, Working(task)).(
            begun := s.begun + [Begun(task, PolicyPending(s, s.profile), VersionPending(s))])
        else Leave(s, service)
    case PolicyWrite(phase) =>
      if s.policyStage.Working? && s.profile.Some? then s.(policies := s.policies[s.profile.value := phase]) else s
    case VersionWrite(phase) =>
      if MayWrite(s, phase) then s.(version := Some(Subject(s).value.(phase := phase))) else s
    case Select(selection) =>
      if s.versionStage.Working? && VersionPending(s)
         && (selection == s.version.value.previous || selection == Some(s.version.value.target)) then
        s.(active := selection)
      else s
    case Activate(chosen) =>
      if s.versionStage.Working? && VersionPending(s)
         && (Some(chosen) == s.version.value.previous || chosen == s.version.value.target) then
        s.(profile := Some(chosen))
      else s
    case Reload => if s.policyStage.Idle? then s.(loaded := s.profile) else s
    case RestoreWrite(unfinished) =>
      if s.backupStage.Working? then s.(restore := if unfinished then Some(Restore(s.active)) else None) else s
    case Finish(service) => if StageOf(s, service).Working? then Leave(s, service) else s
    case Crash(service) => Fallen(s, service)
    case Restart => if s.backupStage.Down? then Restarted(s) else s
    case Recovered =>
      if s.backupStage.Recovering? then
        AtStage(s, BackupService, Idle).(restore := None, profile := if s.active.Some? then s.active else s.profile)
      else s
  }

  function Fallen(s: System, service: Service): System {
    if service == BackupService then AtStage(Leave(s, service), service, Down) else Leave(s, service)
  }

  function Steps(s: System, actions: seq<Action>): System {
    if actions == [] then s else Act(Steps(s, actions[..|actions| - 1]), actions[|actions| - 1])
  }

  // A device at rest: no journal waits for recovery.
  ghost predicate Rested(s: System) {
    && s.policyStage.Idle? && s.versionStage.Idle? && s.backupStage.Idle? && s.holder.None? && s.begun == []
    && s.restore.None?
    && !VersionPending(s) && (forall p :: p in s.policies ==> T.Terminal(s.policies[p]))
    && (s.active.Some? ==> s.profile == s.active)
  }

  // ------------------------------------------------------------------- invariants

  predicate InOrder(s: System, service: Service) {
    var stage := StageOf(s, service);
    && (stage.Locked? || stage.Working? ==> s.holder == Some(service))
    && (stage.Asked? || stage.Locked? || stage.Working? ==> ServiceOf(stage.task) == service)
    && (stage.Down? || stage.Recovering? ==> service == BackupService)
  }

  // A service past its lock holds it, so no two are; a recovery at the start of the
  // backup service finds the other two stopped.
  predicate Exclusive(s: System) {
    && InOrder(s, PolicyService) && InOrder(s, VersionService) && InOrder(s, BackupService)
    && (s.backupStage.Recovering? ==> s.policyStage.Idle? && s.versionStage.Idle?)
  }

  predicate Settled(s: System, t: Transition) {
    && !PolicyPending(s, t.previous) && !PolicyPending(s, Some(t.target))
    && (s.active == t.previous || s.active == Some(t.target))
  }

  // While a version change is unfinished, or about to be recorded, neither of its two
  // profiles has an unfinished policy change; otherwise the selected profile is the
  // configured one.
  predicate Apart(s: System) {
    && (VersionPending(s) ==> Settled(s, s.version.value))
    && (s.versionStage.Working? && s.versionStage.task.VersionApply? ==> Settled(s, Subject(s).value))
    && (s.versionStage.Working? && s.versionStage.task.VersionApply? && VersionPending(s) ==>
          s.version.value.(phase := V.Stopping) == Subject(s).value)
    && (s.policyStage.Working? ==> !VersionPending(s))
    && (!VersionPending(s) && s.active.Some? ==> s.profile == s.active)
  }

  // Each task began with the journals as it needs them: a recovery of a version change
  // with one unfinished and everything else with none; a policy change, a backup or a
  // restore with no policy change unfinished either.
  predicate BegunRightly(s: System) {
    forall b :: b in s.begun ==>
      && (b.versionPending <==> b.task.VersionRecover?)
      && (b.task.PolicyApply? || b.task.Backup? ==> !b.policyPending)
  }

  // The policy service works on the profile that is configured.
  predicate WorksOnProfile(s: System) {
    s.policyStage.Working? ==> s.loaded.Some? && s.loaded == s.profile
  }

  // The version journal is terminal, and so are the policy journals of the configured
  // and of the selected profile.
  predicate Undisturbed(s: System) {
    !VersionPending(s) && !PolicyPending(s, s.profile) && !PolicyPending(s, s.active)
  }

  // The last task that passed its checks was a backup or a restore.
  predicate LastIsBackup(s: System) { s.begun != [] && s.begun[|s.begun| - 1].task.Backup? }

  // From the moment a backup or a restore passes its checks until another service passes
  // its own, nothing disturbs it, crash or not.
  predicate BackupUndisturbed(s: System) {
    && (LastIsBackup(s) ==> Undisturbed(s) && !s.policyStage.Working? && !s.versionStage.Working?)
    && (s.backupStage.Working? ==> LastIsBackup(s))
  }

  predicate Sound(s: System) {
    Exclusive(s) && Apart(s) && BegunRightly(s) && WorksOnProfile(s) && BackupUndisturbed(s)
  }

  // One service at another stage.
  lemma StageKeepsExclusive(s: System, service: Service, stage: Stage, holder: Option<Service>)
    requires Exclusive(s) && (stage.Idle? || !s.backupStage.Recovering? || service == BackupService)
    requires stage.Recovering? ==> s.policyStage.Idle? && s.versionStage.Idle?
    requires stage.Down? || stage.Recovering? ==> service == BackupService
    requires stage.Asked? || stage.Locked? || stage.Working? ==> ServiceOf(stage.task) == service
    requires stage.Locked? || stage.Working? ==> holder == Some(service)
    requires holder == s.holder || s.holder.None? || s.holder == Some(service)
    ensures Exclusive(AtStage(s, service, stage).(holder := holder))
  {
  }

  lemma LeaveKeepsExclusive(s: System, service: Service)
    requires Exclusive(s)
    ensures Exclusive(Leave(s, service))
  {
    StageKeepsExclusive(s, service, Idle, if s.holder == Some(service) then None else s.holder);
  }

  lemma RestartKeepsExclusive(s: System)
    requires Exclusive(s) && s.backupStage.Down?
    ensures Exclusive(Restarted(s))
  {
    LeaveKeepsExclusive(s, PolicyService);
    LeaveKeepsExclusive(Leave(s, PolicyService), VersionService);
    StageKeepsExclusive(s, BackupService, Idle, s.holder);
    var q := Quiesced(s);
    StageKeepsExclusive(q, BackupService, Recovering, q.holder);
    hide Exclusive;
  }

  lemma ActKeepsExclusive(s: System, a: Action)
    requires Exclusive(s)
    ensures Exclusive(Act(s, a))
  {
    match a
    case Ask(task) =>
      if StageOf(s, ServiceOf(task)).Idle? && !s.backupStage.Recovering? {
        StageKeepsExclusive(s, ServiceOf(task), Asked(task), s.holder);
      }
    case Take(service) =>
      if StageOf(s, service).Asked? && s.holder.None? {
        StageKeepsExclusive(s, service, Locked(StageOf(s, service).task), Some(service));
      }
    case Check(service) =>
      LeaveKeepsExclusive(s, service);
      if StageOf(s, service).Locked? {
        StageKeepsExclusive(s, service, Working(StageOf(s, service).task), s.holder);
      }
    case Finish(service) => LeaveKeepsExclusive(s, service);
    case Crash(service) =>
      LeaveKeepsExclusive(s, service);
      if service == BackupService {
        StageKeepsExclusive(Leave(s, service), service, Down, Leave(s, service).holder);
      }
    case Restart => if s.backupStage.Down? { RestartKeepsExclusive(s); }
    case _ =>
  }

  // Stages and the lock alone.
  lemma StageKeepsApart(s: System, service: Service, stage: Stage, holder: Option<Service>)
    requires Apart(s) && !stage.Working?
    ensures Apart(AtStage(s, service, stage).(holder := holder))
  {
  }

  lemma CheckKeepsApart(s: System, service: Service)
    requires Exclusive(s) && Apart(s) && StageOf(s, service).Locked? && Allowed(s, StageOf(s, service).task)
    ensures Apart(Act(s, Check(service)))
  {
  }

  lemma PolicyWriteKeepsApart(s: System, phase: T.Phase)
    requires Exclusive(s) && Apart(s)
    ensures Apart(Act(s, PolicyWrite(phase)))
  {
  }

  lemma VersionWriteKeepsApart(s: System, phase: V.Phase)
    requires Exclusive(s) && Apart(s)
    ensures Apart(Act(s, VersionWrite(phase)))
  {
  }

  lemma ActKeepsApart(s: System, a: Action)
    requires Exclusive(s) && Apart(s)
    ensures Apart(Act(s, a))
  {
    match a
    case Ask(task) =>
      StageKeepsApart(s, ServiceOf(task), Asked(task), s.holder);
    case Take(service) =>
      if StageOf(s, service).Asked? { StageKeepsApart(s, service, Locked(StageOf(s, service).task), Some(service)); }
    case Check(service) =>
      if StageOf(s, service).Locked? && Allowed(s, StageOf(s, service).task) {
        CheckKeepsApart(s, service);
      } else {
        LeaveKeepsApart(s, service);
      }
    case PolicyWrite(phase) => PolicyWriteKeepsApart(s, phase);
    case VersionWrite(phase) => VersionWriteKeepsApart(s, phase);
    case Finish(service) => LeaveKeepsApart(s, service);
    case Crash(service) =>
      LeaveKeepsApart(s, service);
      StageKeepsApart(Leave(s, service), service, Down, Leave(s, service).holder);
    case Restart => RestartKeepsApart(s);
    case _ =>
  }

  lemma LeaveKeepsApart(s: System, service: Service)
    requires Apart(s)
    ensures Apart(Leave(s, service))
  {
    StageKeepsApart(s, service, Idle, if s.holder == Some(service) then None else s.holder);
  }

  lemma RestartKeepsApart(s: System)
    requires Apart(s)
    ensures Apart(Restarted(s))
  {
    LeaveKeepsApart(s, PolicyService);
    LeaveKeepsApart(Leave(s, PolicyService), VersionService);
    StageKeepsApart(s, BackupService, Idle, s.holder);
    StageKeepsApart(Quiesced(s), BackupService, Recovering, Quiesced(s).holder);
    hide Apart;
  }

  lemma ActKeepsBegun(s: System, a: Action)
    requires Exclusive(s) && BegunRightly(s)
    ensures BegunRightly(Act(s, a))
  {
  }

  lemma ActKeepsProfile(s: System, a: Action)
    requires Exclusive(s) && WorksOnProfile(s)
    ensures WorksOnProfile(Act(s, a))
  {
  }

  lemma StagesKeepUndisturbed(s: System, t: System)
    requires BackupUndisturbed(s) && StagesOnly(s, t)
    ensures BackupUndisturbed(t)
  {
  }

  lemma CheckKeepsUndisturbed(s: System, service: Service)
    requires Exclusive(s) && Apart(s) && BackupUndisturbed(s)
    ensures BackupUndisturbed(Act(s, Check(service)))
  {
    if StageOf(s, service).Locked? && !Allowed(s, StageOf(s, service).task) {
      StagesKeepUndisturbed(s, Leave(s, service));
    }
  }

  lemma WriteKeepsUndisturbed(s: System, a: Action)
    requires BackupUndisturbed(s) && (a.PolicyWrite? || a.VersionWrite? || a.Select? || a.Activate? || a.Recovered?)
    ensures BackupUndisturbed(Act(s, a))
  {
  }

  lemma ActKeepsUndisturbed(s: System, a: Action)
    requires Exclusive(s) && Apart(s) && BackupUndisturbed(s)
    ensures BackupUndisturbed(Act(s, a))
  {
    if a.PolicyWrite? || a.VersionWrite? || a.Select? || a.Activate? || a.Recovered? {
      WriteKeepsUndisturbed(s, a);
    } else if a.Check? {
      CheckKeepsUndisturbed(s, a.service);
    } else {
      OthersTouchStages(s, a);
      hide Act, BackupUndisturbed, Exclusive, Apart;
      StagesKeepUndisturbed(s, Act(s, a));
    }
  }

  // Nothing but stages, the lock and the restore journal differs, and no service works
  // that did not.
  predicate StagesOnly(s: System, t: System) {
    && t.policies == s.policies && t.version == s.version && t.active == s.active && t.profile == s.profile
    && t.begun == s.begun
    && (t.policyStage.Working? ==> s.policyStage.Working?)
    && (t.versionStage.Working? ==> s.versionStage.Working?)
    && (t.backupStage.Working? ==> s.backupStage.Working?)
  }

  lemma StageTouches(s: System, service: Service, stage: Stage, holder: Option<Service>)
    requires !stage.Working?
    ensures StagesOnly(s, AtStage(s, service, stage).(holder := holder))
  {
  }

  lemma RestartTouches(s: System)
    ensures StagesOnly(s, Restarted(s))
  {
  }

  lemma OthersTouchStages(s: System, a: Action)
    requires !a.PolicyWrite? && !a.VersionWrite? && !a.Select? && !a.Activate? && !a.Recovered? && !a.Check?
    ensures StagesOnly(s, Act(s, a))
  {
    RestartTouches(s);
    hide Restarted;
    match a
    case Ask(task) => StageTouches(s, ServiceOf(task), Asked(task), s.holder);
    case Take(service) =>
      if StageOf(s, service).Asked? { StageTouches(s, service, Locked(StageOf(s, service).task), Some(service)); }
    case _ =>
  }

  lemma {:induction false} StepsKeepSound(s: System, actions: seq<Action>)
    requires Rested(s)
    ensures Sound(Steps(s, actions))
  {
    if actions != [] {
      var shorter := actions[..|actions| - 1];
      StepsKeepSound(s, shorter);
      ActKeepsExclusive(Steps(s, shorter), actions[|actions| - 1]);
      ActKeepsApart(Steps(s, shorter), actions[|actions| - 1]);
      ActKeepsBegun(Steps(s, shorter), actions[|actions| - 1]);
      ActKeepsProfile(Steps(s, shorter), actions[|actions| - 1]);
      ActKeepsUndisturbed(Steps(s, shorter), actions[|actions| - 1]);
    }
  }

  // On every run the policy journal of the selected profile and the version journal are
  // never both unfinished; each task begins only with the journals as it needs them, and
  // at every step of a backup or a restore both still are terminal; the policy service
  // works only on the configured profile and beside no version change.
  lemma TransactionsNeverOverlap(s: System, actions: seq<Action>)
    requires Rested(s)
    ensures var t := Steps(s, actions);
      && !(VersionPending(t) && PolicyPending(t, t.active))
      && BegunRightly(t)
      && (t.policyStage.Working? ==> t.loaded.Some? && t.loaded == t.profile && !VersionPending(t))
      && (t.backupStage.Working? ==> Undisturbed(t))
      && (t.policyStage.Working? ==> !t.versionStage.Working? && !t.backupStage.Working?)
      && (t.versionStage.Working? ==> !t.backupStage.Working?)
      && (t.backupStage.Recovering? ==> !t.policyStage.Working? && !t.versionStage.Working?)
  {
    StepsKeepSound(s, actions);
  }

  // ------------------------------------------------------- recovery at a restart

  // While the backup service recovers, nothing touches the journals or the profiles.
  lemma RecoveryIsAlone(s: System, a: Action)
    requires Exclusive(s) && s.backupStage.Recovering? && Act(s, a).backupStage.Recovering?
    ensures var t := Act(s, a);
      t.policies == s.policies && t.version == s.version && t.active == s.active && t.profile == s.profile
  {
  }

  // On every run, a recovery at a restart finds both journals terminal exactly when the
  // barrier check that a request makes, and the restart does not, would pass; and it is
  // sure to if no other service passed its checks since the crashed restore did.
  lemma RestartUndisturbed(s: System, actions: seq<Action>)
    requires Rested(s)
    ensures var t := Steps(s, actions);
      var u := Act(t, Restart);
      t.backupStage.Down? && u.backupStage.Recovering? ==>
        && (Undisturbed(u) <==> Allowed(t, Backup))
        && (LastIsBackup(t) ==> Undisturbed(u))
  {
    StepsKeepSound(s, actions);
    hide Sound, Steps, Rested, Act, Allowed, Undisturbed, LastIsBackup;
    var t := Steps(s, actions);
    if t.backupStage.Down? && Act(t, Restart).backupStage.Recovering? { RestartLooks(t); }
  }

  lemma RestartLooks(t: System)
    requires Sound(t) && t.backupStage.Down? && Act(t, Restart).backupStage.Recovering?
    ensures Undisturbed(Act(t, Restart)) <==> Allowed(t, Backup)
    ensures LastIsBackup(t) ==> Undisturbed(Act(t, Restart))
  {
  }

  // And without that it may not: a restore waits for its health check, with the policy
  // service up again; the backup process dies, a policy change takes the freed lock and
  // journals its restart of Core; the backup service comes back, stops it and recovers.
  lemma RestartDisturbs()
    ensures var s := Device("main/27.0");
      var run := [Ask(Backup), Take(BackupService), Check(BackupService), RestoreWrite(true), Ask(PolicyApply),
                  Crash(BackupService), Take(PolicyService), Check(PolicyService), PolicyWrite(T.Restarting), Restart];
      var t := Steps(s, run);
      Rested(s) && t.backupStage.Recovering? && !Undisturbed(t)
  {
    var p := "main/27.0";
    var begin := [Ask(Backup), Take(BackupService), Check(BackupService), RestoreWrite(true), Ask(PolicyApply)];
    var end := [Crash(BackupService), Take(PolicyService), Check(PolicyService), PolicyWrite(T.Restarting), Restart];
    RestoreWaits(p, begin);
    PolicySlipsIn(p, end);
    StepsConcat(Device(p), begin, end);
    assert begin + end == [Ask(Backup), Take(BackupService), Check(BackupService), RestoreWrite(true), Ask(PolicyApply),
                           Crash(BackupService), Take(PolicyService), Check(PolicyService),
                           PolicyWrite(T.Restarting), Restart];
    hide Steps, Act;
  }

  // An unfinished restore holds the lock, and a policy change waits for it.
  function Waiting(p: Profile): System {
    Device(p).(policyStage := Asked(PolicyApply), backupStage := Working(Backup), restore := Some(Restore(Some(p))),
               holder := Some(BackupService), begun := [Begun(Backup, false, false)])
  }

  lemma RestoreWaits(p: Profile, run: seq<Action>)
    requires run == [Ask(Backup), Take(BackupService), Check(BackupService), RestoreWrite(true), Ask(PolicyApply)]
    ensures Steps(Device(p), run) == Waiting(p)
  {
    RunFive(Device(p), run);
    RestoreBegins(p);
    RestoreWritten(p);
    hide Steps, Act;
  }

  function Restoring(p: Profile): System {
    Device(p).(backupStage := Working(Backup), holder := Some(BackupService), begun := [Begun(Backup, false, false)])
  }

  lemma RestoreBegins(p: Profile)
    ensures Act(Act(Act(Device(p), Ask(Backup)), Take(BackupService)), Check(BackupService)) == Restoring(p)
  {
  }

  lemma RestoreWritten(p: Profile)
    ensures Act(Act(Restoring(p), RestoreWrite(true)), Ask(PolicyApply)) == Waiting(p)
  {
  }

  lemma PolicySlipsIn(p: Profile, run: seq<Action>)
    requires run == [Crash(BackupService), Take(PolicyService), Check(PolicyService), PolicyWrite(T.Restarting), Restart]
    ensures var t := Steps(Waiting(p), run); t.backupStage.Recovering? && !Undisturbed(t)
  {
    RunFive(Waiting(p), run);
    hide Steps;
  }

  // A device with this profile, at rest.
  function Device(p: Profile): System {
    System(map[], None, Some(p), Some(p), Some(p), Idle, Idle, Idle, None, None, [])
  }

  lemma StepsNext(s: System, run: seq<Action>, i: nat)
    requires i < |run|
    ensures Steps(s, run[..i + 1]) == Act(Steps(s, run[..i]), run[i])
  {
    hide Act;
    assert run[..i + 1][..i] == run[..i];
  }

  lemma RunFive(s: System, run: seq<Action>)
    requires |run| == 5
    ensures Steps(s, run) == Act(Act(Act(Act(Act(s, run[0]), run[1]), run[2]), run[3]), run[4])
  {
    hide Act;
    assert Steps(s, run[..0]) == s;
    StepsNext(s, run, 0);
    StepsNext(s, run, 1);
    StepsNext(s, run, 2);
    StepsNext(s, run, 3);
    StepsNext(s, run, 4);
    assert run[..5] == run;
  }

  lemma {:induction false} StepsConcat(s: System, a: seq<Action>, b: seq<Action>)
    ensures Steps(s, a + b) == Steps(Steps(s, a), b)
    decreases |b|
  {
    if b == [] {
      assert a + b == a;
    } else {
      hide Act;
      assert (a + b)[..|a + b| - 1] == a + b[..|b| - 1];
      StepsConcat(s, a, b[..|b| - 1]);
    }
  }
}
