// What the accounting of a compaction log means, said of the events of the log alone.
module CompactionMeaning {
  import opened Common
  import opened Strings
  import opened Compaction

  // ------------------------------------------------------------------ said of a log

  // The events since a job was started by hand; none unless it is still under way.
  ghost function Since(events: seq<Line>, job: nat): Option<seq<Line>> {
    if events == [] then None
    else
      var before, last := events[..|events| - 1], events[|events| - 1];
      if last == Started(job, true) then Some([])
      else if last == Finished(job) then None
      else match Since(before, job)
        case None => None
        case Some(part) => Some(part + [last])
  }

  ghost function Underway(events: seq<Line>): set<nat> {
    set e | e in events && e.Started? && Since(events, e.job).Some? :: e.job
  }

  // The output files a job has announced in these events.
  ghost function Files(part: seq<Line>, job: nat): set<nat> {
    set e | e in part && e.Created? && e.job == job && e.file.Some? :: e.file.value
  }

  predicate Whole(line: Line)
    requires line.Created?
  {
    line.family.Some? && line.entries.Some? && line.file.Some?
  }

  // The line announces an output file that the job under way has not announced before.
  ghost predicate Adds(before: seq<Line>, line: Line) {
    && line.Created? && Whole(line)
    && Since(before, line.job).Some? && line.file.value !in Files(Since(before, line.job).value, line.job)
  }

  // What the files announced for this family hold.
  ghost function Announced(events: seq<Line>, f: Family): nat {
    if events == [] then 0
    else
      var before, last := events[..|events| - 1], events[|events| - 1];
      Announced(before, f) + if Adds(before, last) && last.family == Some(f) then last.entries.value else 0
  }

  // The line cannot be accounted for.
  ghost predicate Spoils(before: seq<Line>, line: Line) {
    match line
    case Unrelated => false
    case Malformed => true
    case Started(job, manual) => manual && (Since(before, job).Some? || |Underway(before)| >= 128)
    case Created(job, _, _, _) =>
      Since(before, job).Some?
      && (!Whole(line) || (Adds(before, line) && |Files(Since(before, job).value, job)| >= 32768))
    case Finished(_) => false
  }

  ghost predicate StartedAt(events: seq<Line>, job: nat, s: nat) {
    s < |events| && events[s] == Started(job, true) && Finished(job) !in events[s + 1..]
  }

  // The last start of a job that has not ended, and what followed it.
  ghost predicate LastStartAt(events: seq<Line>, job: nat, s: nat, part: seq<Line>) {
    s < |events| && StartedAt(events, job, s) && part == events[s + 1..] && Started(job, true) !in part
  }

  lemma StartedBefore(before: seq<Line>, last: Line, job: nat, s: nat)
    requires s < |before|
    ensures (before + [last])[s + 1..] == before[s + 1..] + [last]
    ensures StartedAt(before + [last], job, s) <==> StartedAt(before, job, s) && last != Finished(job)
  {
  }

  // A job is under way exactly if it was started by hand and not ended since; its events
  // are those after the last start.
  lemma {:induction false} SinceMeans(events: seq<Line>, job: nat)
    ensures Since(events, job).Some? <==> exists s: nat :: StartedAt(events, job, s)
    ensures Since(events, job).Some? ==> exists s: nat :: LastStartAt(events, job, s, Since(events, job).value)
  {
    hide StartedAt;
    if events != [] {
      var before, last := events[..|events| - 1], events[|events| - 1];
      assert events == before + [last];
      SinceMeans(before, job);
      forall s: nat | s < |before|
        ensures StartedAt(events, job, s) <==> StartedAt(before, job, s) && last != Finished(job)
      {
        StartedBefore(before, last, job, s);
      }
      LastStart(before, last, job);
      if last != Started(job, true) && last != Finished(job) && Since(before, job).Some? {
        var s: nat :| LastStartAt(before, job, s, Since(before, job).value);
        StartedBefore(before, last, job, s);
        assert LastStartAt(events, job, s, Since(events, job).value);
      } else if last == Started(job, true) {
        assert LastStartAt(events, job, |before|, []);
      }
      forall s: nat | StartedAt(events, job, s) ensures s < |events| { InRange(events, job, s); }
      forall s: nat | StartedAt(before, job, s) ensures s < |before| { InRange(before, job, s); }
    } else {
      forall s: nat | StartedAt(events, job, s) ensures false { InRange(events, job, s); }
    }
  }

  lemma InRange(events: seq<Line>, job: nat, s: nat)
    requires StartedAt(events, job, s)
    ensures s < |events|
  {
  }

  lemma LastStart(before: seq<Line>, last: Line, job: nat)
    ensures StartedAt(before + [last], job, |before|) <==> last == Started(job, true)
    ensures (before + [last])[|before| + 1..] == []
  {
  }

  // ---------------------------------------------------------- the accounting says it

  function AccountOf(events: seq<Line>): Account {
    if events == [] then FRESH else Observed(AccountOf(events[..|events| - 1]), events[|events| - 1])
  }

  // The open jobs are the ones under way, each with the files it announced.
  ghost predicate Mirrors(jobs: seq<Job>, events: seq<Line>) {
    && OwnIds(jobs)
    && (forall j :: j in jobs ==>
          Since(events, j.id).Some? && j.files == Files(Since(events, j.id).value, j.id))
    && (forall id :: Since(events, id).Some? ==> Find(jobs, id).Some?)
  }

  lemma SinceNext(events: seq<Line>, x: Line, job: nat)
    ensures Since(events + [x], job) ==
      if x == Started(job, true) then Some([]) else if x == Finished(job) then None
      else match Since(events, job) case None => None case Some(part) => Some(part + [x])
  {
    assert (events + [x])[..|events|] == events;
  }

  lemma FilesNext(part: seq<Line>, x: Line, job: nat)
    ensures Files(part + [x], job) ==
      Files(part, job) + if x.Created? && x.job == job && x.file.Some? then {x.file.value} else {}
  {
  }

  lemma {:induction false} IdsOf(jobs: seq<Job>)
    requires OwnIds(jobs)
    ensures |set j | j in jobs :: j.id| == |jobs|
  {
    if jobs != [] {
      var rest, last := jobs[..|jobs| - 1], jobs[|jobs| - 1];
      assert jobs == rest + [last];
      IdsOf(rest);
      assert (set j | j in jobs :: j.id) == (set j | j in rest :: j.id) + {last.id};
    }
  }

  lemma UnderwayJobs(jobs: seq<Job>, events: seq<Line>)
    requires Mirrors(jobs, events)
    ensures |Underway(events)| == |jobs|
  {
    IdsOf(jobs);
    forall id ensures id in Underway(events) <==> id in (set j | j in jobs :: j.id) {
      SinceMeans(events, id);
      Found(jobs, id);
      assert Since(events, id).Some? ==> Started(id, true) in events;
    }
    assert Underway(events) == (set j | j in jobs :: j.id);
  }

  lemma StartMirrors(a: Account, events: seq<Line>, job: nat)
    requires Mirrors(a.jobs, events)
    ensures Start(a, job).valid <==> a.valid && !Spoils(events, Started(job, true))
    ensures Start(a, job).outputs == a.outputs
    ensures Start(a, job).valid ==> Mirrors(Start(a, job).jobs, events + [Started(job, true)])
  {
    UnderwayJobs(a.jobs, events);
    Found(a.jobs, job);
    var x, jobs := Started(job, true), a.jobs + [Job(job, a.openings, {})];
    if Start(a, job).valid {
      forall id ensures Since(events + [x], id).Some? ==> Find(jobs, id).Some? {
        SinceNext(events, x, id);
        Found(jobs, id);
        Found(a.jobs, id);
      }
      forall j | j in jobs
        ensures Since(events + [x], j.id).Some? && j.files == Files(Since(events + [x], j.id).value, j.id)
      {
        SinceNext(events, x, j.id);
        if j in a.jobs { FilesNext(Since(events, j.id).value, x, j.id); }
      }
    }
  }

  lemma OtherMirrors(jobs: seq<Job>, events: seq<Line>, x: Line)
    requires Mirrors(jobs, events)
    requires !(x.Started? && x.manual) && !x.Finished?
    requires x.Created? && Since(events, x.job).Some? ==>
      x.file.Some? && x.file.value in Files(Since(events, x.job).value, x.job)
    ensures Mirrors(jobs, events + [x])
  {
    forall id ensures Since(events + [x], id).Some? ==> Find(jobs, id).Some? { SinceNext(events, x, id); }
    forall j | j in jobs
      ensures Since(events + [x], j.id).Some? && j.files == Files(Since(events + [x], j.id).value, j.id)
    {
      SinceNext(events, x, j.id);
      FilesNext(Since(events, j.id).value, x, j.id);
    }
  }

  lemma FinishMirrors(a: Account, events: seq<Line>, job: nat)
    requires Mirrors(a.jobs, events) && Remembered(a)
    ensures Mirrors(Without(a.jobs, job), events + [Finished(job)])
  {
    var x, jobs := Finished(job), Without(a.jobs, job);
    WithoutSome(a.jobs, job);
    WithoutDistinct(a.jobs, job);
    forall id ensures Since(events + [x], id).Some? ==> Find(jobs, id).Some? {
      SinceNext(events, x, id);
      Found(jobs, id);
      Found(a.jobs, id);
    }
    forall j | j in jobs
      ensures Since(events + [x], j.id).Some? && j.files == Files(Since(events + [x], j.id).value, j.id)
    {
      SinceNext(events, x, j.id);
      FilesNext(Since(events, j.id).value, x, j.id);
    }
  }

  ghost predicate OwnIds(jobs: seq<Job>) { forall i, j :: 0 <= i < j < |jobs| ==> jobs[i].id != jobs[j].id }

  lemma OneMore(jobs: seq<Job>, last: Job)
    requires OwnIds(jobs) && forall j :: j in jobs ==> j.id != last.id
    ensures OwnIds(jobs + [last])
  {
  }

  lemma {:induction false} WithoutDistinct(jobs: seq<Job>, id: nat)
    requires OwnIds(jobs)
    ensures forall j :: j in Without(jobs, id) ==> j in jobs
    ensures OwnIds(Without(jobs, id))
  {
    if jobs != [] {
      var rest, last := jobs[..|jobs| - 1], jobs[|jobs| - 1];
      assert jobs == rest + [last];
      WithoutDistinct(rest, id);
      assert forall j :: j in rest ==> j.id != last.id;
      if last.id != id { OneMore(Without(rest, id), last); }
    }
  }

  lemma AddMirrors(jobs: seq<Job>, events: seq<Line>, x: Line, i: nat)
    requires Mirrors(jobs, events) && Adds(events, x) && i < |jobs| && jobs[i].id == x.job
    ensures Mirrors(jobs[i := jobs[i].(files := jobs[i].files + {x.file.value})], events + [x])
  {
    var next := jobs[i := jobs[i].(files := jobs[i].files + {x.file.value})];
    forall id ensures Since(events + [x], id).Some? ==> Find(next, id).Some? {
      SinceNext(events, x, id);
      Found(jobs, id);
      Found(next, id);
      if Find(jobs, id).Some? { assert next[Find(jobs, id).value] in next; }
    }
    forall j | j in next
      ensures Since(events + [x], j.id).Some? && j.files == Files(Since(events + [x], j.id).value, j.id)
    {
      var k :| 0 <= k < |next| && next[k] == j;
      assert jobs[k] in jobs && jobs[k].id == j.id;
      SinceNext(events, x, j.id);
      FilesNext(Since(events, j.id).value, x, j.id);
    }
  }

  // One event: what it adds, and whether it can be accounted for.
  lemma StepMirrors(a: Account, events: seq<Line>, x: Line)
    requires Mirrors(a.jobs, events) && Remembered(a)
    ensures Observed(a, x).valid <==> a.valid && !Spoils(events, x)
    ensures Observed(a, x).valid ==> Mirrors(Observed(a, x).jobs, events + [x])
    ensures Observed(a, x).valid ==> forall f ::
      Observed(a, x).outputs.Of(f)
        == a.outputs.Of(f) + if Adds(events, x) && x.family == Some(f) then x.entries.value else 0
  {
    match x
    case Unrelated => OtherMirrors(a.jobs, events, x);
    case Malformed =>
    case Started(job, manual) =>
      if manual { StartMirrors(a, events, job); } else { OtherMirrors(a.jobs, events, x); }
    case Created(job, _, _, _) => CreatedMirrors(a, events, x);
    case Finished(job) => FinishMirrors(a, events, job);
  }

  lemma CreatedMirrors(a: Account, events: seq<Line>, x: Line)
    requires Mirrors(a.jobs, events) && x.Created?
    ensures Observed(a, x).valid <==> a.valid && !Spoils(events, x)
    ensures Observed(a, x).valid ==> Mirrors(Observed(a, x).jobs, events + [x])
    ensures Observed(a, x).valid ==> forall f ::
      Observed(a, x).outputs.Of(f)
        == a.outputs.Of(f) + if Adds(events, x) && x.family == Some(f) then x.entries.value else 0
  {
    Found(a.jobs, x.job);
    if Find(a.jobs, x.job).None? {
      OtherMirrors(a.jobs, events, x);
    } else {
      var i := Find(a.jobs, x.job).value;
      assert a.jobs[i] in a.jobs;
      if Adds(events, x) {
        AddMirrors(a.jobs, events, x, i);
      } else if Whole(x) {
        OtherMirrors(a.jobs, events, x);
      }
    }
  }

  // The events of a log can be accounted for exactly if none of them spoils it, and then
  // the totals are what the announced files hold.
  lemma {:induction false} AccountMeans(events: seq<Line>)
    ensures Fair(AccountOf(events))
    ensures AccountOf(events).valid <==> forall i :: 0 <= i < |events| ==> !Spoils(events[..i], events[i])
    ensures AccountOf(events).valid ==> Mirrors(AccountOf(events).jobs, events)
    ensures AccountOf(events).valid ==> forall f :: AccountOf(events).outputs.Of(f) == Announced(events, f)
  {
    if events != [] {
      var before, last := events[..|events| - 1], events[|events| - 1];
      assert events == before + [last];
      AccountMeans(before);
      assert forall i :: 0 <= i < |before| ==> events[..i] == before[..i] && events[i] == before[i];
      ObservedKeepsFair(AccountOf(before), last);
      if AccountOf(before).valid { StepMirrors(AccountOf(before), before, last); }
    } else {
      NothingRead((l: Bytes) => Unrelated);
    }
  }

  function EventsOf(lines: seq<Bytes>, parse: Bytes -> Line): seq<Line> {
    seq(|lines|, i requires 0 <= i < |lines| => parse(lines[i]))
  }

  lemma {:induction false} NotedEvents(lines: seq<Bytes>, parse: Bytes -> Line)
    ensures (forall l :: l in lines ==> |l| <= MAX_LINE) ==>
      NotedAll(FRESH, lines, parse) == AccountOf(EventsOf(lines, parse))
  {
    if lines != [] {
      var before := lines[..|lines| - 1];
      assert lines == before + [lines[|lines| - 1]];
      NotedEvents(before, parse);
      var events := EventsOf(lines, parse);
      assert events[..|events| - 1] == EventsOf(before, parse);
    }
  }

  // A log is readable exactly if no line is too long and no event spoils it; its
  // accounting then holds, for each family, what the files announced in it hold.
  lemma LogMeans(log: Bytes, parse: Bytes -> Line)
    ensures var lines := Complete(log);
      var events := EventsOf(lines, parse);
      && (Readable(log, parse) <==>
            && |Rest(log)| <= 65536 && (forall l :: l in lines ==> |l| <= 65536)
            && forall i :: 0 <= i < |events| ==> !Spoils(events[..i], events[i]))
      && (Readable(log, parse) ==> forall f :: Accounted(log, parse).outputs.Of(f) == Announced(events, f))
  {
    var lines := Complete(log);
    NotedAllInvalid(FRESH, lines, parse);
    NotedEvents(lines, parse);
    AccountMeans(EventsOf(lines, parse));
    hide Complete, Rest, NotedAll, AccountOf, Spoils, Announced, Fair, Mirrors;
  }

  // What an observer has counted while it is valid, said of the events it has read.
  lemma ProgressMeans(p: Progress)
    requires p.Valid() && p.valid
    ensures var events := EventsOf(Complete(p.consumed), p.parse);
      && (forall i :: 0 <= i < |events| ==> !Spoils(events[..i], events[i]))
      && forall f :: p.outputs.Of(f) == Announced(events, f)
  {
    LogMeans(p.consumed, p.parse);
    assert p.State().outputs == p.outputs;
    hide Spoils, Announced, Accounted, Readable, EventsOf;
  }
}
