// Applying a policy: the journalled two-phase write of the managed file, and its
// recovery. Every durable write may be the last step of a run, and every restart of
// Core may fail its health check.
module PolicyTransaction {
  import opened Common
  import opened Strings
  import opened PolicyModel
  import opened PolicySaved
  import opened PolicyText

  datatype Phase = Prepared | Restarting | Committed | RollingBack | RolledBack | RecoveryFailed

  // The durable journal beside the managed file; a digest stands for what it hashes.
  datatype Journal = Journal(phase: Phase, version: string, network: string, binary: string,
                             before: string, after: string)

  datatype Plan = Plan(version: string, network: string, revision: string, requested: Values, coreValues: Values)

  datatype Preflight = Preflight(plan: Plan, binary: string)

  datatype Stop = Crashed | ReceiptChanged | ProfileMismatch | FileChanged | Refusing | Altered | NeedsRecovery
    | NoJournal | ForeignProfile | ForeignFile

  type Status = Result<(), Stop>

  predicate Terminal(phase: Phase) { phase == Committed || phase == RolledBack }

  // Whether a journal beside the managed file waits for recovery.
  predicate Pending(j: Option<Journal>) { j.Some? && !Terminal(j.value.phase) }

  // What the journal promises about the managed file and about the running Core:
  // `served` is the text with which Core last passed its check, if it passed.
  predicate Faithful(j: Journal, text: string, served: Option<string>) {
    match j.phase
    case Prepared => text == j.before || text == j.after
    case Restarting => text == j.after
    case Committed => text == j.after && served == Some(j.after)
    case RollingBack => text == j.before || text == j.after
    case RolledBack => text == j.before && served == Some(j.before)
    case RecoveryFailed => text == j.before
  }

  // The part of `preview` that decides: what this request would store.
  function Preview(p: Policy, text: string, requested: Values): Checked {
    if Current(p, text).Err? then Err(Refused) else Validate(p, requested)
  }

  function Rendered(values: Values, network: string, keys: seq<string>): Result<string, Refusal>
    requires Listing(keys, values)
  {
    match RenderLines(values, network, keys)
    case Err(e) => Err(e)
    case Ok(lines) => Ok(Text(lines))
  }

  // Why `apply` refuses before it writes anything.
  function Refuses(p: Policy, plan: Plan, receipt: Preflight, binary: string, text: string,
                   record: Option<Journal>): Option<Stop>
  {
    if receipt != Preflight(plan, binary) then Some(ReceiptChanged)
    else if plan.version != p.version || plan.network != p.network then Some(ProfileMismatch)
    else if text != plan.revision then Some(FileChanged)
    else if Preview(p, text, plan.requested).Err? then Some(Refusing)
    else if Preview(p, text, plan.requested) != Ok(plan.coreValues) then Some(Altered)
    else if Pending(record) then Some(NeedsRecovery)
    else None
  }

  // The receipt is for this plan and program, the plan for this profile and this very
  // file; it asks for what it shows, and the last transaction has ended.
  ghost predicate AsReviewed(p: Policy, plan: Plan, receipt: Preflight, binary: string, text: string,
                             record: Option<Journal>)
  {
    && receipt.plan == plan && receipt.binary == binary
    && plan.version == p.version && plan.network == p.network && plan.revision == text
    && Current(p, text).Ok? && Validate(p, plan.requested) == Ok(plan.coreValues)
    && (record.Some? ==> record.value.phase in {Committed, RolledBack})
  }

  // Nothing else is refused, and nothing else applied.
  lemma RefusesTheRest(p: Policy, plan: Plan, receipt: Preflight, binary: string, text: string,
                       record: Option<Journal>)
    ensures Refuses(p, plan, receipt, binary, text, record).None? <==>
      AsReviewed(p, plan, receipt, binary, text, record)
  {
    hide Validate, Current;
  }

  // What an accepted plan renders reads back as the plan's values.
  lemma PlanReadsBack(p: Policy, plan: Plan, receipt: Preflight, binary: string, text: string,
                      record: Option<Journal>, keys: seq<string>)
    requires Reviewed(p) && Listing(keys, plan.coreValues)
    requires Refuses(p, plan, receipt, binary, text, record).None?
    ensures !Pending(record)
    ensures var after := Rendered(plan.coreValues, p.network, keys);
      after.Ok? && CurrentEffective(p, after.value) == Ok(plan.coreValues)
  {
    SavedIsFixed(p, plan.requested, keys);
  }

  class Managed {
    var text: string
    var record: Option<Journal>
    var served: Option<string>

    constructor (text: string)
      ensures Consistent() && record.None? && this.text == text
    {
      this.text := text;
      record := None;
      served := None;
    }

    predicate Consistent()
      reads this
    {
      record.Some? ==> Faithful(record.value, text, served)
    }

    // ---------------------------------------------------------------- environment

    method Trouble(calm: bool) returns (r: Status)
      ensures r.Err? ==> r.error == Crashed
      ensures calm ==> r.Ok?
    {
      r := *;
      if calm || (r.Err? && r.error != Crashed) { r := Ok(()); }
    }

    method Persist(j: Journal, calm: bool) returns (r: Status)
      requires Faithful(j, text, served)
      modifies this`record
      ensures old(Consistent()) || record == Some(j) ==> Consistent()
      ensures record == old(record) || record == Some(j)
      ensures r.Ok? ==> record == Some(j)
      ensures r.Err? ==> r.error == Crashed
      ensures calm ==> r.Ok?
    {
      var _ :- Trouble(calm);
      record := Some(j);
      r := Trouble(calm);
    }

    method WriteText(content: string, calm: bool) returns (r: Status)
      requires Consistent() && (record.Some? ==> Faithful(record.value, content, served))
      modifies this`text
      ensures Consistent() && (text == old(text) || text == content)
      ensures r.Ok? ==> text == content
      ensures r.Err? ==> r.error == Crashed
      ensures calm ==> r.Ok?
    {
      var _ :- Trouble(calm);
      text := content;
      r := Trouble(calm);
    }

    // Core is restarted with the file as it is, and checked; only in phases that claim
    // nothing about the running Core.
    method RestartAndCheck(healthy: bool, calm: bool) returns (r: Result<bool, Stop>)
      requires Consistent() && Pending(record)
      modifies this`served
      ensures Consistent()
      ensures r == Ok(true) ==> served == Some(text)
      ensures r.Err? ==> r.error == Crashed
      ensures calm ==> r == Ok(healthy)
    {
      var _ :- Trouble(calm);
      served := if healthy then Some(text) else None;
      var _ :- Trouble(calm);
      return Ok(healthy);
    }

    // ---------------------------------------------------------------- operations

    // Restores the previous text and restarts with it, after `rolling_back` was
    // persisted.
    method RollBack(j: Journal, healthy: bool, calm: bool) returns (r: Result<Journal, Stop>)
      requires Consistent() && record == Some(j) && j.phase == RollingBack
      modifies this
      ensures Consistent() && (text == j.before || text == old(text))
      ensures record.Some? && Similar(record.value, j) && record.value.phase in {RollingBack, RolledBack, RecoveryFailed}
      ensures r.Ok? ==> text == j.before && record == Some(r.value) && r.value.phase in {RolledBack, RecoveryFailed}
      ensures r.Err? ==> r.error == Crashed
      ensures calm ==> r.Ok? && (r.value.phase == RolledBack <==> healthy)
    {
      var _ :- WriteText(j.before, calm);
      var ok :- RestartAndCheck(healthy, calm);
      var last := j.(phase := if ok then RolledBack else RecoveryFailed);
      var _ :- Persist(last, calm);
      return Ok(last);
    }

    // The writes of `apply`, from the first journal on.
    method Transact(j: Journal, healthy: bool, again: bool, calm: bool) returns (r: Result<Journal, Stop>)
      requires Consistent() && !Pending(record)
      requires j.phase == Prepared && j.before == text
      modifies this
      ensures Consistent() && (text == j.before || text == j.after)
      ensures record == old(record) || (record.Some? && Similar(record.value, j))
      ensures r.Ok? ==> record == Some(r.value) && Similar(r.value, j)
      ensures r.Ok? ==> r.value.phase in {Committed, RolledBack, RecoveryFailed}
      ensures r.Err? ==> r.error == Crashed
      ensures calm ==> r.Ok? && r.value.phase == Outcome(healthy, again)
    {
      var _ :- Persist(j, calm);
      var _ :- WriteText(j.after, calm);
      var _ :- Persist(j.(phase := Restarting), calm);
      var ok :- RestartAndCheck(healthy, calm);
      if ok {
        var _ :- Persist(j.(phase := Committed), calm);
        return Ok(j.(phase := Committed));
      }
      var back := j.(phase := RollingBack);
      var _ :- Persist(back, calm);
      r := RollBack(back, again, calm);
    }

    // `apply`: refused without a trace, or carried through one recorded transaction.
    method Apply(p: Policy, plan: Plan, receipt: Preflight, binary: string, keys: seq<string>,
                 healthy: bool, again: bool, calm: bool) returns (r: Result<Journal, Stop>)
      requires Consistent() && Reviewed(p) && Listing(keys, plan.coreValues)
      modifies this
      ensures Consistent()
      ensures var refusal := Refuses(p, plan, receipt, binary, old(text), old(record));
        && (refusal.Some? ==> r == Err(refusal.value))
        && (refusal.Some? ==> text == old(text) && record == old(record) && served == old(served))
        && (refusal.None? && r.Err? ==> r.error == Crashed)
        && (refusal.None? && calm ==> r.Ok? && r.value.phase == Outcome(healthy, again))
      // What was reviewed is what is applied, and only over the file it was reviewed against.
      ensures r.Ok? || text != old(text) || record != old(record) || served != old(served) ==>
                AsReviewed(p, plan, receipt, binary, old(text), old(record))
      ensures AsReviewed(p, plan, receipt, binary, old(text), old(record)) ==>
                && (r.Err? ==> !calm && r.error == Crashed)
                && (calm ==> r.value.phase == if healthy then Committed else if again then RolledBack else RecoveryFailed)
      ensures text != old(text) ==> CurrentEffective(p, text) == Ok(plan.coreValues)
      ensures record != old(record) ==> record.Some? && record.value.before == old(text)
      ensures record != old(record) ==> CurrentEffective(p, record.value.after) == Ok(plan.coreValues)
      ensures r.Ok? ==> record == Some(r.value) && r.value.before == old(text) && SameProfile(r.value, p, binary)
      ensures r.Ok? && r.value.phase == Committed ==> CurrentEffective(p, text) == Ok(plan.coreValues)
      ensures r.Ok? && r.value.phase != Committed ==> text == old(text)
    {
      hide CurrentEffective, Refuses, Listing, Reviewed, AsReviewed, RenderLines;
      var refusal := Refuses(p, plan, receipt, binary, text, record);
      RefusesTheRest(p, plan, receipt, binary, text, record);
      if refusal.Some? { return Err(refusal.value); }
      PlanReadsBack(p, plan, receipt, binary, text, record, keys);
      var after := Render(plan.coreValues, p.network, keys);
      assert after == Rendered(plan.coreValues, p.network, keys);
      r := Transact(Journal(Prepared, p.version, p.network, binary, text, after.value), healthy, again, calm);
    }

    // `recover`: whatever phase the journal is in, the file ends with what it was before;
    // a file that is neither of the journal's two texts is left alone.
    method Recover(p: Policy, binary: string, healthy: bool, calm: bool) returns (r: Result<Journal, Stop>)
      modifies this
      ensures old(Consistent()) || (r.Ok? && Pending(old(record))) ==> Consistent()
      ensures r == Err(ForeignFile) <==>
                && Pending(old(record)) && SameProfile(old(record).value, p, binary)
                && old(text) !in {old(record).value.before, old(record).value.after}
      ensures old(record).None? ==> r == Err(NoJournal)
      ensures old(record).Some? && !SameProfile(old(record).value, p, binary) ==> r == Err(ForeignProfile)
      ensures r.Err? && r.error != Crashed ==> r.error in {NoJournal, ForeignProfile, ForeignFile}
      ensures r.Err? && r.error != Crashed ==> text == old(text) && record == old(record)
      ensures r.Ok? && !Pending(old(record)) ==> record == old(record) == Some(r.value)
      ensures r.Ok? && !Pending(old(record)) ==> text == old(text) && served == old(served)
      ensures r.Ok? && Pending(old(record)) ==>
                && record == Some(r.value) && Similar(r.value, old(record).value)
                && text == r.value.before && r.value.phase in {RolledBack, RecoveryFailed}
      ensures calm && old(record).Some? && SameProfile(old(record).value, p, binary) && r != Err(ForeignFile) ==>
                r.Ok? && (Pending(old(record)) ==> (r.value.phase == RolledBack <==> healthy))
      ensures old(record).Some? ==> record.Some? && Similar(record.value, old(record).value)
      ensures text == old(text) || (old(record).Some? && text == old(record).value.before)
    {
      if record.None? { return Err(NoJournal); }
      var j := record.value;
      if !SameProfile(j, p, binary) { return Err(ForeignProfile); }
      if Terminal(j.phase) { return Ok(j); }
      if text != j.before && text != j.after { return Err(ForeignFile); }
      var back := j.(phase := RollingBack);
      var _ :- Persist(back, calm);
      r := RollBack(back, healthy, calm);
    }

    // Any run of the service: applies and recoveries in any order, each possibly cut
    // short, each with its own outcome of the health checks.
    method Run(p: Policy, requests: seq<Request>)
      requires Consistent() && Reviewed(p)
      requires forall q :: q in requests && q.Apply? ==> Listing(q.keys, q.plan.coreValues)
      modifies this
      ensures Consistent()
      ensures Known(p, old(text), old(record), requests, text)
    {
      ghost var text0, record0 := text, record;
      for i := 0 to |requests|
        invariant Consistent() && Known(p, text0, record0, requests, text)
        invariant record.Some? ==> Known(p, text0, record0, requests, record.value.before)
        invariant record.Some? ==> Known(p, text0, record0, requests, record.value.after)
      {
        hide CurrentEffective, Reviewed, Refuses, Listing;
        assert requests[i] in requests;
        match requests[i]
        case Apply(plan, receipt, binary, keys, healthy, again) =>
          var _ := Apply(p, plan, receipt, binary, keys, healthy, again, false);
        case Recover(binary, healthy) =>
          var _ := Recover(p, binary, healthy, false);
      }
    }
  }

  datatype Request =
    | Apply(plan: Plan, receipt: Preflight, binary: string, keys: seq<string>, healthy: bool, again: bool)
    | Recover(binary: string, healthy: bool)

  // A text the service started with, or the printed form of a requested, validated plan.
  ghost predicate Known(p: Policy, text0: string, record0: Option<Journal>, requests: seq<Request>, text: string) {
    || text == text0
    || (record0.Some? && (text == record0.value.before || text == record0.value.after))
    || exists q :: q in requests && q.Apply? && CurrentEffective(p, text) == Ok(q.plan.coreValues)
  }

  function Outcome(healthy: bool, again: bool): Phase {
    if healthy then Committed else if again then RolledBack else RecoveryFailed
  }

  // The same transaction, perhaps in another phase.
  predicate Similar(a: Journal, b: Journal) { a.(phase := b.phase) == b }

  predicate SameProfile(j: Journal, p: Policy, binary: string) {
    j.version == p.version && j.network == p.network && j.binary == binary
  }
}
