// The indexer's compaction progress, accounted from its own log: what is counted does
// not depend on how the log was cut into reads, nothing is counted twice, and the
// published figure never goes back.
module Compaction {
  import opened Common
  import opened Strings

  type Bytes = string

  const MAX_READ := 1024 * 1024
  const MAX_LINE := 65536
  const MAX_JOBS := 128
  const MAX_FILES := 32768

  datatype Family = Config | Headers | Txid | Funding | Spending

  // One number for each column family.
  datatype Weights = Weights(config: nat, headers: nat, txid: nat, funding: nat, spending: nat) {
    function Of(f: Family): nat {
      match f
      case Config => config
      case Headers => headers
      case Txid => txid
      case Funding => funding
      case Spending => spending
    }

    function Plus(f: Family, n: nat): Weights {
      match f
      case Config => this.(config := config + n)
      case Headers => this.(headers := headers + n)
      case Txid => this.(txid := txid + n)
      case Funding => this.(funding := funding + n)
      case Spending => this.(spending := spending + n)
    }

    function Total(): nat { config + headers + txid + funding + spending }

    // The families before this one, in the order in which they are compacted.
    function Before(f: Family): nat {
      match f
      case Config => 0
      case Headers => config
      case Txid => config + headers
      case Funding => config + headers + txid
      case Spending => config + headers + txid + funding
    }
  }

  // The families before one are those ahead of it in the order of compaction.
  lemma CompactedInOrder(w: Weights)
    ensures w.Before(Config) == 0 && w.Before(Headers) == w.Of(Config)
    ensures w.Before(Txid) == w.Before(Headers) + w.Of(Headers)
    ensures w.Before(Funding) == w.Before(Txid) + w.Of(Txid)
    ensures w.Before(Spending) == w.Before(Funding) + w.Of(Funding)
    ensures w.Total() == w.Before(Spending) + w.Of(Spending)
  {
  }

  const NOTHING := Weights(0, 0, 0, 0, 0)

  // What a log line says; the JSON itself is not part of this model.
  datatype Line =
    | Unrelated
    | Malformed
    | Started(job: nat, manual: bool)
    | Created(job: nat, family: Option<Family>, entries: Option<nat>, file: Option<nat>)
    | Finished(job: nat)

  // A compaction under way: its number in the log, which opening this is, and the
  // output files seen for it.
  datatype Job = Job(id: nat, serial: nat, files: set<nat>)

  datatype Count = Count(serial: nat, file: nat, family: Family, entries: nat)

  // The accounting, with every count it is made of.
  datatype Account = Account(jobs: seq<Job>, outputs: Weights, valid: bool, openings: nat, counted: seq<Count>)

  const FRESH := Account([], NOTHING, true, 0, [])

  function Find(jobs: seq<Job>, id: nat): Option<nat> {
    if jobs == [] then None
    else if jobs[|jobs| - 1].id == id then Some(|jobs| - 1)
    else Find(jobs[..|jobs| - 1], id)
  }

  lemma {:induction false} Found(jobs: seq<Job>, id: nat)
    ensures match Find(jobs, id)
      case Some(i) => i < |jobs| && jobs[i].id == id
      case None => forall j :: j in jobs ==> j.id != id
  {
    if jobs != [] {
      var rest := jobs[..|jobs| - 1];
      assert jobs == rest + [jobs[|jobs| - 1]];
      if jobs[|jobs| - 1].id != id { Found(rest, id); }
    }
  }

  function Without(jobs: seq<Job>, id: nat): seq<Job> {
    if jobs == [] then []
    else
      var last := jobs[|jobs| - 1];
      Without(jobs[..|jobs| - 1], id) + if last.id == id then [] else [last]
  }

  function Start(a: Account, id: nat): Account {
    if Find(a.jobs, id).Some? then a.(valid := false)
    else
      var jobs := a.jobs + [Job(id, a.openings, {})];
      var next := a.(jobs := jobs, openings := a.openings + 1);
      if |jobs| > MAX_JOBS then next.(jobs := jobs[1..], valid := false) else next
  }

  function Create(a: Account, i: nat, line: Line): Account
    requires i < |a.jobs| && line.Created?
  {
    if line.family.None? || line.entries.None? || line.file.None? then a.(valid := false)
    else
      var job, file := a.jobs[i], line.file.value;
      if file in job.files then a
      else if |job.files| >= MAX_FILES then a.(valid := false)
      else Tally(a, i, Count(job.serial, file, line.family.value, line.entries.value))
  }

  function Tally(a: Account, i: nat, c: Count): Account
    requires i < |a.jobs|
  {
    a.(jobs := a.jobs[i := a.jobs[i].(files := a.jobs[i].files + {c.file})],
       outputs := a.outputs.Plus(c.family, c.entries),
       counted := a.counted + [c])
  }

  // What one line changes.
  function Observed(a: Account, line: Line): Account {
    match line
    case Unrelated => a
    case Malformed => a.(valid := false)
    case Started(job, manual) => if manual then Start(a, job) else a
    case Created(job, _, _, _) =>
      Found(a.jobs, job);
      if Find(a.jobs, job).Some? then Create(a, Find(a.jobs, job).value, line) else a
    case Finished(job) => a.(jobs := Without(a.jobs, job))
  }

  // A line of the log, with its length limit.
  function Noted(a: Account, line: Bytes, parse: Bytes -> Line): Account {
    if |line| > MAX_LINE then a.(valid := false) else Observed(a, parse(line))
  }

  function NotedAll(a: Account, lines: seq<Bytes>, parse: Bytes -> Line): Account {
    if lines == [] then a
    else Noted(NotedAll(a, lines[..|lines| - 1], parse), lines[|lines| - 1], parse)
  }

  // ------------------------------------------------------------ each file counts once

  function SumOf(counted: seq<Count>, f: Family): nat {
    if counted == [] then 0
    else
      var last := counted[|counted| - 1];
      SumOf(counted[..|counted| - 1], f) + if last.family == f then last.entries else 0
  }

  // No file is counted twice for one opening of a job.
  ghost predicate Once(counted: seq<Count>) {
    forall i, j :: 0 <= i < j < |counted| ==>
      (counted[i].serial, counted[i].file) != (counted[j].serial, counted[j].file)
  }

  // The outputs are exactly what was counted.
  ghost predicate Summed(a: Account) { forall f :: a.outputs.Of(f) == SumOf(a.counted, f) }

  // An open job remembers all it counted.
  ghost predicate Remembered(a: Account) {
    && (forall c :: c in a.counted ==> c.serial < a.openings)
    && (forall j :: j in a.jobs ==> j.serial < a.openings)
    && (forall j, c :: j in a.jobs && c in a.counted && c.serial == j.serial ==> c.file in j.files)
    && (forall i, j :: 0 <= i < j < |a.jobs| ==> a.jobs[i].serial != a.jobs[j].serial)
    && |a.jobs| <= MAX_JOBS
  }

  ghost predicate Fair(a: Account) { Once(a.counted) && Summed(a) && Remembered(a) }

  lemma SumNext(counted: seq<Count>, c: Count, f: Family)
    ensures SumOf(counted + [c], f) == SumOf(counted, f) + if c.family == f then c.entries else 0
  {
    assert (counted + [c])[..|counted|] == counted;
  }

  lemma {:induction false} WithoutSome(jobs: seq<Job>, id: nat)
    requires forall i, j :: 0 <= i < j < |jobs| ==> jobs[i].serial != jobs[j].serial
    ensures |Without(jobs, id)| <= |jobs|
    ensures forall j :: j in Without(jobs, id) <==> j in jobs && j.id != id
    ensures var r := Without(jobs, id); forall i, j :: 0 <= i < j < |r| ==> r[i].serial != r[j].serial
  {
    if jobs != [] {
      var rest, last := jobs[..|jobs| - 1], jobs[|jobs| - 1];
      assert jobs == rest + [last];
      WithoutSome(rest, id);
      var r := Without(rest, id);
      forall i | 0 <= i < |r| ensures r[i].serial != last.serial {
        assert r[i] in r && r[i] in rest;
      }
    }
  }

  lemma JobRemembered(a: Account, id: nat)
    requires Remembered(a) && |a.jobs| < MAX_JOBS
    ensures Remembered(a.(jobs := a.jobs + [Job(id, a.openings, {})], openings := a.openings + 1))
  {
  }

  lemma OldestForgotten(a: Account)
    requires Remembered(a) && a.jobs != []
    ensures Remembered(a.(jobs := a.jobs[1..]))
  {
    assert forall j :: j in a.jobs[1..] ==> j in a.jobs;
  }

  lemma StartKeepsFair(a: Account, id: nat)
    requires Fair(a)
    ensures Fair(Start(a, id))
  {
    hide Once, SumOf;
    if Find(a.jobs, id).None? {
      if |a.jobs| < MAX_JOBS {
        JobRemembered(a, id);
      } else {
        var job := Job(id, a.openings, {});
        assert (a.jobs + [job])[1..] == a.jobs[1..] + [job];
        OldestForgotten(a);
        JobRemembered(a.(jobs := a.jobs[1..]), id);
      }
    }
    hide Remembered;
  }

  lemma CountedOnce(counted: seq<Count>, c: Count)
    requires Once(counted)
    requires forall d :: d in counted ==> (d.serial, d.file) != (c.serial, c.file)
    ensures Once(counted + [c])
  {
  }

  lemma FileRemembered(a: Account, i: nat, file: nat, c: Count)
    requires Remembered(a) && i < |a.jobs| && c.serial == a.jobs[i].serial && c.file == file
    ensures var job := a.jobs[i];
      Remembered(a.(jobs := a.jobs[i := job.(files := job.files + {file})], counted := a.counted + [c]))
  {
    var jobs := a.jobs[i := a.jobs[i].(files := a.jobs[i].files + {file})];
    forall j | j in jobs ensures exists k :: 0 <= k < |a.jobs| && a.jobs[k].serial == j.serial
                                            && a.jobs[k].files <= j.files
    {
      var k :| 0 <= k < |jobs| && jobs[k] == j;
      assert a.jobs[k].files <= j.files;
    }
    forall j, d | j in jobs && d in a.counted + [c] && d.serial == j.serial ensures d.file in j.files {
      var k :| 0 <= k < |jobs| && jobs[k] == j;
      assert a.jobs[k] in a.jobs && a.jobs[i] in a.jobs;
    }
  }

  lemma TallySummed(a: Account, i: nat, c: Count)
    requires Summed(a) && i < |a.jobs|
    ensures Summed(Tally(a, i, c))
  {
    forall f ensures Tally(a, i, c).outputs.Of(f) == SumOf(a.counted + [c], f) { SumNext(a.counted, c, f); }
  }

  lemma TallyKeepsFair(a: Account, i: nat, c: Count)
    requires Fair(a) && i < |a.jobs| && c.serial == a.jobs[i].serial && c.file !in a.jobs[i].files
    ensures Fair(Tally(a, i, c))
  {
    assert a.jobs[i] in a.jobs;
    assert forall d :: d in a.counted ==> (d.serial, d.file) != (c.serial, c.file);
    CountedOnce(a.counted, c);
    hide Once, Summed;
    TallySummed(a, i, c);
    FileRemembered(a, i, c.file, c);
    RememberedSame(a, i, c);
  }

  lemma RememberedSame(a: Account, i: nat, c: Count)
    requires i < |a.jobs|
    requires Remembered(a.(jobs := a.jobs[i := a.jobs[i].(files := a.jobs[i].files + {c.file})],
                           counted := a.counted + [c]))
    ensures Remembered(Tally(a, i, c))
  {
  }

  lemma CreateKeepsFair(a: Account, i: nat, line: Line)
    requires Fair(a) && i < |a.jobs| && line.Created?
    ensures Fair(Create(a, i, line))
  {
    hide Once, SumOf, Tally;
    if Create(a, i, line) != a && Create(a, i, line) != a.(valid := false) {
      TallyKeepsFair(a, i, Count(a.jobs[i].serial, line.file.value, line.family.value, line.entries.value));
    }
  }

  lemma ObservedKeepsFair(a: Account, line: Line)
    requires Fair(a)
    ensures Fair(Observed(a, line))
    ensures Observed(a, line).valid ==> a.valid
  {
    match line
    case Started(job, manual) => StartKeepsFair(a, job);
    case Created(job, _, _, _) =>
      Found(a.jobs, job);
      if Find(a.jobs, job).Some? { CreateKeepsFair(a, Find(a.jobs, job).value, line); }
    case Finished(job) => WithoutSome(a.jobs, job);
    case _ =>
  }

  // ------------------------------------------------------------------ cutting a log

  function Complete(data: Bytes): seq<Bytes> {
    var parts := Split(data, '\n');
    parts[..|parts| - 1]
  }

  function Rest(data: Bytes): Bytes {
    var parts := Split(data, '\n');
    parts[|parts| - 1]
  }

  // One more character after these parts.
  function Extended(parts: seq<Bytes>, c: char): seq<Bytes>
    requires parts != []
  {
    if c == '\n' then parts + [""] else parts[..|parts| - 1] + [parts[|parts| - 1] + [c]]
  }

  lemma ExtendedAfter(before: seq<Bytes>, parts: seq<Bytes>, c: char)
    requires parts != []
    ensures Extended(before + parts, c) == before + Extended(parts, c)
  {
    assert (before + parts)[..|before + parts| - 1] == before + parts[..|parts| - 1];
  }

  function Prepend(x: char, parts: seq<Bytes>): seq<Bytes>
    requires parts != []
  {
    [[x] + parts[0]] + parts[1..]
  }

  lemma ExtendedPrepend(x: char, parts: seq<Bytes>, c: char)
    requires parts != []
    ensures Extended(Prepend(x, parts), c) == Prepend(x, Extended(parts, c))
  {
    if |parts| == 1 {
      assert [x] + (parts[0] + [c]) == [x] + parts[0] + [c];
      assert Extended(parts, c)[1..] == if c == '\n' then [""] else [];
    } else {
      ExtendedAfter([parts[0]], parts[1..], c);
      ExtendedAfter([[x] + parts[0]], parts[1..], c);
      assert [parts[0]] + parts[1..] == parts;
    }
  }

  lemma {:induction false} SplitExtended(s: Bytes, c: char)
    ensures Split(s + [c], '\n') == Extended(Split(s, '\n'), c)
  {
    if s == "" {
      var t := s + [c];
      assert t[0] == c && t[1..] == "";
      assert Split(t[1..], '\n') == [""] && [c] + "" == "" + [c];
    } else {
      var rest := Split(s[1..], '\n');
      assert (s + [c])[0] == s[0] && (s + [c])[1..] == s[1..] + [c];
      SplitExtended(s[1..], c);
      if s[0] == '\n' {
        ExtendedAfter([""], rest, c);
      } else {
        assert Split(s, '\n') == Prepend(s[0], rest);
        assert Split(s + [c], '\n') == Prepend(s[0], Extended(rest, c));
        ExtendedPrepend(s[0], rest, c);
      }
    }
  }

  lemma {:induction false} SplitContinues(a: Bytes, b: Bytes)
    ensures Split(a + b, '\n') == Complete(a) + Split(Rest(a) + b, '\n')
  {
    if b == "" {
      RestHasNoBreak(a);
      SplitSingle(Rest(a), '\n');
      assert a + b == a && Rest(a) + b == Rest(a);
    } else {
      var shorter, c := b[..|b| - 1], b[|b| - 1];
      hide Split;
      SplitContinues(a, shorter);
      SplitExtended(a + shorter, c);
      SplitExtended(Rest(a) + shorter, c);
      assert a + shorter + [c] == a + b && Rest(a) + shorter + [c] == Rest(a) + b;
      ExtendedAfter(Complete(a), Split(Rest(a) + shorter, '\n'), c);
    }
  }

  lemma CompleteContinues(a: Bytes, b: Bytes)
    ensures Complete(a + b) == Complete(a) + Complete(Rest(a) + b)
    ensures Rest(a + b) == Rest(Rest(a) + b)
  {
    SplitContinues(a, b);
  }

  // The first part of a text continued is the continuation of its first part.
  lemma RestContinues(rest: Bytes, b: Bytes)
    requires '\n' !in rest
    ensures Complete(rest + b) != [] ==> |Complete(rest + b)[0]| >= |rest|
    ensures Complete(rest + b) == [] ==> |Rest(rest + b)| >= |rest|
  {
    SplitSingle(rest, '\n');
    FirstPart(rest, b);
  }

  lemma {:induction false} FirstPart(rest: Bytes, b: Bytes)
    requires '\n' !in rest
    ensures |Split(rest + b, '\n')[0]| >= |rest|
  {
    if rest != "" {
      assert (rest + b)[1..] == rest[1..] + b;
      FirstPart(rest[1..], b);
    }
  }

  lemma {:induction false} NotedConcat(a: Account, xs: seq<Bytes>, ys: seq<Bytes>, parse: Bytes -> Line)
    ensures NotedAll(a, xs + ys, parse) == NotedAll(NotedAll(a, xs, parse), ys, parse)
  {
    if ys == [] {
      assert xs + ys == xs;
    } else {
      var shorter := ys[..|ys| - 1];
      assert (xs + ys)[..|xs + ys| - 1] == xs + shorter;
      NotedConcat(a, xs, shorter, parse);
    }
  }

  lemma NotedInvalid(a: Account, line: Bytes, parse: Bytes -> Line)
    ensures Noted(a.(valid := false), line, parse) == Noted(a, line, parse).(valid := false)
    ensures Noted(a, line, parse).valid ==> a.valid
  {
  }

  lemma {:induction false} NotedAllInvalid(a: Account, lines: seq<Bytes>, parse: Bytes -> Line)
    ensures NotedAll(a.(valid := false), lines, parse) == NotedAll(a, lines, parse).(valid := false)
    ensures NotedAll(a, lines, parse).valid ==> a.valid && forall l :: l in lines ==> |l| <= MAX_LINE
  {
    if lines != [] {
      var shorter, last := lines[..|lines| - 1], lines[|lines| - 1];
      assert lines == shorter + [last];
      NotedAllInvalid(a, shorter, parse);
      NotedInvalid(NotedAll(a, shorter, parse), last, parse);
    }
  }

  lemma {:induction false} NotedAllFair(a: Account, lines: seq<Bytes>, parse: Bytes -> Line)
    requires Fair(a)
    ensures Fair(NotedAll(a, lines, parse))
  {
    if lines != [] {
      NotedAllFair(a, lines[..|lines| - 1], parse);
      ObservedKeepsFair(NotedAll(a, lines[..|lines| - 1], parse), parse(lines[|lines| - 1]));
    }
  }

  // The accounting of a whole log, however it is read.
  function Accounted(log: Bytes, parse: Bytes -> Line): Account {
    NotedAll(FRESH, Complete(log), parse)
  }

  predicate Readable(log: Bytes, parse: Bytes -> Line) {
    Accounted(log, parse).valid && |Rest(log)| <= MAX_LINE
  }

  lemma RestHasNoBreak(data: Bytes)
    ensures '\n' !in Rest(data)
  {
    SplitParts(data, '\n', Rest(data));
  }

  // A log that was unreadable stays unreadable.
  lemma ReadablePrefix(a: Bytes, b: Bytes, parse: Bytes -> Line)
    requires Readable(a + b, parse)
    ensures Readable(a, parse)
  {
    var more := Complete(Rest(a) + b);
    CompleteContinues(a, b);
    NotedConcat(FRESH, Complete(a), more, parse);
    NotedAllInvalid(Accounted(a, parse), more, parse);
    RestHasNoBreak(a);
    RestContinues(Rest(a), b);
    assert more != [] ==> more[0] in more;
  }

  // An accounting that says of a log what the whole log says; once invalid, it may have
  // lost track of anything but that.
  ghost predicate Tracks(a: Account, partial: Bytes, sound: bool, consumed: Bytes, parse: Bytes -> Line) {
    && Fair(a)
    && (a.valid <==> sound && Readable(consumed, parse))
    && (a.valid ==> partial == Rest(consumed) && a == Accounted(consumed, parse))
  }

  lemma ReadContinues(consumed: Bytes, chunk: Bytes, parse: Bytes -> Line)
    ensures Rest(consumed + chunk) == Rest(Rest(consumed) + chunk)
    ensures Accounted(consumed + chunk, parse) ==
      NotedAll(Accounted(consumed, parse), Complete(Rest(consumed) + chunk), parse)
  {
    CompleteContinues(consumed, chunk);
    NotedConcat(FRESH, Complete(consumed), Complete(Rest(consumed) + chunk), parse);
  }

  // One more read, cut anywhere.
  lemma ReadKeepsTracks(a: Account, partial: Bytes, sound: bool, consumed: Bytes, chunk: Bytes, parse: Bytes -> Line)
    requires Tracks(a, partial, sound, consumed, parse)
    ensures var rest, lines := Rest(partial + chunk), Complete(partial + chunk);
      var start := if |rest| > MAX_LINE then a.(valid := false) else a;
      Tracks(NotedAll(start, lines, parse), if |rest| > MAX_LINE then "" else rest, sound, consumed + chunk, parse)
  {
    var rest, lines := Rest(partial + chunk), Complete(partial + chunk);
    var start := if |rest| > MAX_LINE then a.(valid := false) else a;
    hide Complete, Rest;
    assert Fair(start) by { hide SumOf; }
    NotedAllFair(start, lines, parse);
    NotedAllInvalid(a, lines, parse);
    NotedAllInvalid(start, lines, parse);
    if a.valid {
      ReadContinues(consumed, chunk, parse);
    } else if Readable(consumed + chunk, parse) {
      ReadablePrefix(consumed, chunk, parse);
    }
  }

  // ------------------------------------------------------------------ the observer

  datatype Report = Report(points: nat, total: nat, done: nat, complete: bool)

  // Where the indexer is: done, or compacting a family, or in another stage.
  datatype Phase = Compacted | Compacting(family: Family) | Elsewhere

  class Progress {
    const parse: Bytes -> Line
    var identity: Option<nat>
    var offset: nat
    var partial: Bytes
    var jobs: seq<Job>
    var openings: nat
    var outputs: Weights
    var counts: Option<Weights>
    var points: nat
    var valid: bool
    ghost var counted: seq<Count>
    ghost var consumed: Bytes
    ghost var sound: bool

    ghost function State(): Account
      reads this
    {
      Account(jobs, outputs, valid, openings, counted)
    }

    // The state is what the part of the log read since the last rotation accounts for,
    // however it was cut; `sound` is the validity at that rotation.
    ghost predicate Valid()
      reads this
    {
      && Tracks(State(), partial, sound, consumed, parse)
      && points <= 9999
      && (counts.Some? ==> counts.value.Total() > 0)
    }

    // History before the start is ignored.
    constructor (parse: Bytes -> Line, identity: Option<nat>, size: nat)
      ensures Valid() && valid && consumed == "" && points == 0 && this.parse == parse
      ensures this.identity == identity && offset == (if identity.Some? then size else 0) && sound
    {
      this.parse := parse;
      this.identity := identity;
      offset, partial, jobs, openings, outputs := if identity.Some? then size else 0, "", [], 0, NOTHING;
      counts, points, valid := None, 0, true;
      counted, consumed, sound := [], "", true;
      new;
      assert Complete("") == [] && Rest("") == "";
    }

    // `observe` and the length check before it.
    method Observe(line: Bytes)
      modifies this`jobs, this`openings, this`outputs, this`valid, this`counted
      ensures State() == Noted(old(State()), line, parse)
    {
      if |line| > MAX_LINE {
        valid := false;
        return;
      }
      match parse(line)
      case Unrelated =>
      case Malformed => valid := false;
      case Started(job, manual) =>
        if manual { Open(job); }
      case Created(job, family, entries, file) =>
        Found(jobs, job);
        var i := Find(jobs, job);
        if i.Some? { Add(i.value, parse(line)); }
      case Finished(job) => jobs := Without(jobs, job);
    }

    method Open(job: nat)
      modifies this`jobs, this`openings, this`valid
      ensures State() == Start(old(State()), job)
    {
      if Find(jobs, job).Some? {
        valid := false;
        return;
      }
      jobs := jobs + [Job(job, openings, {})];
      openings := openings + 1;
      if |jobs| > MAX_JOBS {
        valid := false;
        jobs := jobs[1..];
      }
    }

    method Add(i: nat, line: Line)
      requires i < |jobs| && line.Created?
      modifies this`jobs, this`outputs, this`valid, this`counted
      ensures State() == Create(old(State()), i, line)
    {
      if line.family.None? || line.entries.None? || line.file.None? {
        valid := false;
        return;
      }
      var file := line.file.value;
      if file in jobs[i].files { return; }
      if |jobs[i].files| >= MAX_FILES {
        valid := false;
        return;
      }
      counted := counted + [Count(jobs[i].serial, file, line.family.value, line.entries.value)];
      jobs := jobs[i := jobs[i].(files := jobs[i].files + {file})];
      outputs := outputs.Plus(line.family.value, line.entries.value);
    }

    // The lines of one read, after the unfinished one was put aside.
    method ObserveAll(lines: seq<Bytes>)
      modifies this`jobs, this`openings, this`outputs, this`valid, this`counted
      ensures State() == NotedAll(old(State()), lines, parse)
    {
      for i := 0 to |lines|
        invariant State() == NotedAll(old(State()), lines[..i], parse)
      {
        assert lines[..i + 1][..i] == lines[..i];
        Observe(lines[i]);
      }
      assert lines[..|lines|] == lines;
    }

    // The part of `read_log` that follows one read of the file.
    method Take(chunk: Bytes)
      requires Valid()
      modifies this
      ensures Valid() && consumed == old(consumed) + chunk && sound == old(sound)
      ensures identity == old(identity) && offset == old(offset) && counts == old(counts) && points == old(points)
    {
      ReadKeepsTracks(State(), partial, sound, consumed, chunk, parse);
      hide Tracks, NotedAll;
      var parts := Split(partial + chunk, '\n');
      var lines := parts[..|parts| - 1];
      partial := parts[|parts| - 1];
      if |partial| > MAX_LINE {
        valid := false;
        partial := "";
      }
      ObserveAll(lines);
      consumed := consumed + chunk;
    }

    // Another log under the same name: the accounting starts again, and stays invalid
    // once the key counts were taken.
    method Rotate(id: nat)
      requires Valid()
      modifies this
      ensures Valid() && points == old(points) && counts == old(counts)
      ensures identity == Some(id) && offset == 0 && consumed == "" && sound == (old(valid) && counts.None?)
    {
      NothingTracked(valid && counts.None?, parse);
      hide Tracks;
      if counts.Some? { valid := false; }
      identity, offset, partial, jobs, outputs := Some(id), 0, "", [], NOTHING;
      openings, counted, consumed, sound := 0, [], "", valid;
    }

    // `read_log`: the log as it is now, under its file identity. True when it was read
    // to its end.
    method ReadLog(id: nat, log: Bytes) returns (done: bool)
      requires Valid()
      modifies this
      ensures Valid() && points == old(points) && counts == old(counts)
      ensures done <==> offset == |log|
      ensures identity == Some(id)
      ensures !Rotated(old(identity), old(offset), id, log) ==>
        && sound == old(sound) && old(offset) <= offset <= |log|
        && (offset == |log| || offset == old(offset) + MAX_READ)
        && consumed == old(consumed) + log[old(offset)..offset]
      ensures Rotated(old(identity), old(offset), id, log) ==>
        && sound == (old(valid) && counts.None?) && offset <= |log| && consumed == log[..offset]
    {
      if identity != Some(id) || |log| < offset { Rotate(id); }
      hide Tracks;
      var end := if |log| - offset > MAX_READ then offset + MAX_READ else |log|;
      var chunk := log[offset..end];
      offset := end;
      Take(chunk);
      return offset >= |log|;
    }

    // `estimate`.
    method Estimate(family: Family) returns (r: Option<Report>)
      requires Valid()
      modifies this`points
      ensures Valid() && old(points) <= points
      ensures r.Some? <==> valid && counts.Some?
      ensures r.None? ==> points == old(points)
      ensures r.Some? ==>
        && r.value.points == points && r.value.total == counts.value.Total() && !r.value.complete
        && r.value.done == counts.value.Before(family) + Min(counts.value.Of(family), SumOf(counted, family))
        && r.value.done <= r.value.total
        && points == Max(old(points), Min(9999, BasisPoints(r.value.done, r.value.total)))
    {
      if !valid || counts.None? { return None; }
      var weights := counts.value;
      assert outputs.Of(family) == SumOf(counted, family) by { assert Fair(State()); }
      var done := weights.Before(family) + Min(weights.Of(family), outputs.Of(family));
      var total := weights.Total();
      hide BasisPoints;
      points := Max(points, Min(9999, BasisPoints(done, total)));
      return Some(Report(points, total, done, false));
    }

    // `snapshot`: a failed read of the log or of the key counts reports nothing.
    method Snapshot(phase: Phase, log: Option<(nat, Bytes)>, measured: Option<Weights>) returns (r: Option<Report>)
      requires Valid() && (measured.Some? ==> measured.value.Total() > 0)
      modifies this
      ensures Valid() && old(points) <= points
      ensures phase.Compacted? ==> r == Some(Report(10000, 0, 0, true)) && points == old(points)
      ensures counts == if phase.Compacting? && log.Some? && old(counts).None? then measured else old(counts)
      ensures r.Some? <==>
        phase.Compacted?
        || (phase.Compacting? && log.Some? && counts.Some? && valid && offset == |log.value.1|)
      ensures r.Some? && !phase.Compacted? ==>
        && !r.value.complete && r.value.points == points
        && r.value.done == counts.value.Before(phase.family)
                           + Min(counts.value.Of(phase.family), SumOf(counted, phase.family))
      ensures !phase.Compacting? || log.None? ==> points == old(points) && offset == old(offset) && valid == old(valid)
      ensures r.None? ==> points == old(points)
    {
      if phase.Compacted? { return Some(Report(10000, 0, 0, true)); }
      if phase.Elsewhere? || log.None? { return None; }
      var caughtUp := ReadLog(log.value.0, log.value.1);
      if counts.None? {
        if measured.None? { return None; }
        counts := measured;
      }
      if !valid || !caughtUp { return None; }
      r := Estimate(phase.family);
    }

    // Any sequence of polls publishes figures that never go back and never reach 100%.
    method Watch(polls: seq<Poll>) returns (published: seq<nat>)
      requires Valid() && forall q :: q in polls ==> q.measured.Some? ==> q.measured.value.Total() > 0
      modifies this
      ensures Valid()
      ensures forall i :: 0 <= i < |published| ==> old(points) <= published[i] <= 9999
      ensures forall i, j :: 0 <= i < j < |published| ==> published[i] <= published[j]
    {
      published := [];
      for i := 0 to |polls|
        invariant Valid() && old(points) <= points
        invariant forall i :: 0 <= i < |published| ==> old(points) <= published[i] <= points
        invariant forall i, j :: 0 <= i < j < |published| ==> published[i] <= published[j]
      {
        hide Tracks;
        var report := Snapshot(Compacting(polls[i].family), polls[i].log, polls[i].measured);
        if report.Some? { published := published + [report.value.points]; }
      }
    }
  }

  datatype Poll = Poll(family: Family, log: Option<(nat, Bytes)>, measured: Option<Weights>)

  function Min(a: nat, b: nat): nat { if a < b then a else b }
  function Max(a: nat, b: nat): nat { if a < b then b else a }

  function BasisPoints(done: nat, total: nat): nat
    requires total > 0
  {
    done * 10000 / total
  }

  // The log was replaced or cut short.
  predicate Rotated(identity: Option<nat>, offset: nat, id: nat, log: Bytes) {
    identity != Some(id) || |log| < offset
  }

  lemma NothingRead(parse: Bytes -> Line)
    ensures Complete("") == [] && Rest("") == "" && Accounted("", parse) == FRESH && Readable("", parse)
    ensures Fair(FRESH) && Fair(FRESH.(valid := false))
  {
  }

  lemma NothingTracked(valid: bool, parse: Bytes -> Line)
    ensures Tracks(FRESH.(valid := valid), "", valid, "", parse)
  {
    NothingRead(parse);
  }

  // Two observers of the same part of a log agree, wherever their reads ended: on
  // whether the accounting is valid, and while it is, on all of it.
  lemma CutsDoNotMatter(p: Progress, q: Progress)
    requires p.Valid() && q.Valid() && p.parse == q.parse
    requires p.consumed == q.consumed && p.sound == q.sound
    ensures p.valid == q.valid
    ensures p.valid ==> p.State() == q.State() && p.partial == q.partial
  {
  }

  // Where a log had grown to when it was read.
  ghost predicate Growing(cuts: seq<nat>, from: nat, to: nat) {
    && (forall i :: 0 <= i < |cuts| ==> from <= cuts[i] <= to)
    && (forall i, j :: 0 <= i < j < |cuts| ==> cuts[i] <= cuts[j])
  }

  // One observer of a growing log: a read whenever it has grown, then reads to its end.
  method Follow(p: Progress, id: nat, log: Bytes, cuts: seq<nat>)
    requires p.Valid() && p.identity == Some(id) && p.offset <= |log| && Growing(cuts, p.offset, |log|)
    modifies p
    ensures p.Valid() && p.identity == Some(id) && p.offset == |log|
    ensures p.sound == old(p.sound) && p.consumed == old(p.consumed) + log[old(p.offset)..]
  {
    hide Tracks;
    ghost var start, before := p.offset, p.consumed;
    assert log[start..start] == [];
    for i := 0 to |cuts|
      invariant p.Valid() && p.identity == Some(id) && start <= p.offset <= |log|
      invariant forall j :: i <= j < |cuts| ==> p.offset <= cuts[j]
      invariant p.sound == old(p.sound) && p.consumed == before + log[start..p.offset]
    {
      FollowOnce(p, id, log, cuts[i], start, before);
    }
    while p.offset < |log|
      invariant p.Valid() && p.identity == Some(id) && start <= p.offset <= |log|
      invariant p.sound == old(p.sound) && p.consumed == before + log[start..p.offset]
      decreases |log| - p.offset
    {
      FollowOnce(p, id, log, |log|, start, before);
    }
    assert log[start..|log|] == log[start..];
  }

  method FollowOnce(p: Progress, id: nat, log: Bytes, cut: nat, ghost start: nat, ghost before: Bytes)
    requires p.Valid() && p.identity == Some(id) && start <= p.offset <= cut <= |log|
    requires p.consumed == before + log[start..p.offset]
    modifies p
    ensures p.Valid() && p.identity == Some(id) && old(p.offset) <= p.offset <= cut
    ensures old(p.offset) < cut ==> old(p.offset) < p.offset
    ensures p.sound == old(p.sound) && p.consumed == before + log[start..p.offset]
  {
    hide Tracks;
    var _ := p.ReadLog(id, log[..cut]);
    assert log[..cut][old(p.offset)..p.offset] == log[old(p.offset)..p.offset];
    assert log[start..old(p.offset)] + log[old(p.offset)..p.offset] == log[start..p.offset];
  }

  // Two observers started at the same place of one growing log, each reading at its own
  // moments: both end with the accounting of that part of the log as a whole.
  method TwoObservers(parse: Bytes -> Line, id: nat, start: nat, log: Bytes, cutsP: seq<nat>, cutsQ: seq<nat>)
    returns (p: Progress, q: Progress)
    requires start <= |log| && Growing(cutsP, start, |log|) && Growing(cutsQ, start, |log|)
    ensures p.valid == q.valid == Readable(log[start..], parse)
    ensures p.valid ==> p.State() == q.State() == Accounted(log[start..], parse)
    ensures p.valid ==> p.partial == q.partial == Rest(log[start..])
  {
    p := new Progress(parse, Some(id), start);
    q := new Progress(parse, Some(id), start);
    Follow(p, id, log, cutsP);
    Follow(q, id, log, cutsQ);
    assert p.consumed == log[start..] && q.consumed == log[start..];
    hide Accounted, Readable, Fair, Rest;
  }

  // While it is valid, every output file was counted once for each opening of its job,
  // and the totals are those counts.
  lemma CountedFairly(p: Progress)
    requires p.Valid()
    ensures Once(p.counted) && forall f :: p.outputs.Of(f) == SumOf(p.counted, f)
  {
    assert Fair(p.State());
  }
}
