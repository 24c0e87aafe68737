// The backup archive: what is written is read back, and under an unchanged manifest
// nothing else is.
module BackupArchive {
  import opened Common
  import opened Strings
  import B = BackupRestore

  type Bytes = B.Bytes
  type Values = B.Values

  const MAX_FILE := 2 * 1024 * 1024

  // One catalogued file; `added` marks the optional settings a legacy archive may lack.
  datatype Spec = Spec(key: string, mode: string, required: bool, added: bool)

  datatype Record = Record(key: string, present: bool, digest: Option<B.Digest>, size: nat, mode: string)
  datatype Manifest = Manifest(schema: int, chainData: bool, records: seq<Record>)

  // The manifest member holds a JSON document of `size` bytes.
  datatype Body = Document(manifest: Manifest, size: nat) | Data(bytes: Bytes)
  datatype Member = Member(name: string, regular: bool, body: Body)
  type Archive = seq<Member>

  datatype Fault = Refused

  const MANIFEST := "manifest.json"
  const FOLDER := "files/"

  ghost predicate Catalog(specs: seq<Spec>) {
    && (forall i, j :: 0 <= i < j < |specs| ==> specs[i].key != specs[j].key)
    && (forall i :: 0 <= i < |specs| ==> SafeName(FOLDER + specs[i].key) && !(specs[i].added && specs[i].required))
  }

  predicate SafeName(name: string) {
    !StartsWith(name, "/") && ".." !in Split(name, '/')
  }

  // ------------------------------------------------------------------- writing

  function RecordOf(spec: Spec, data: Option<Bytes>): Record {
    match data
    case None => Record(spec.key, false, None, 0, spec.mode)
    case Some(bytes) => Record(spec.key, true, Some(B.Sha(bytes)), |bytes|, spec.mode)
  }

  ghost predicate Covers(specs: seq<Spec>, values: Values) {
    forall i :: 0 <= i < |specs| ==> specs[i].key in values
  }

  function Records(specs: seq<Spec>, values: Values): (r: seq<Record>)
    requires forall i :: 0 <= i < |specs| ==> specs[i].key in values
    ensures |r| == |specs|
    ensures forall i :: 0 <= i < |specs| ==> r[i] == RecordOf(specs[i], values[specs[i].key])
  {
    seq(|specs|, i requires 0 <= i < |specs| => RecordOf(specs[i], values[specs[i].key]))
  }

  function ManifestOf(specs: seq<Spec>, values: Values): Manifest
    requires forall i :: 0 <= i < |specs| ==> specs[i].key in values
  {
    Manifest(1, false, Records(specs, values))
  }

  function Files(specs: seq<Spec>, values: Values): Archive
    requires forall i :: 0 <= i < |specs| ==> specs[i].key in values
  {
    if specs == [] then []
    else
      var key := specs[0].key;
      (if values[key].Some? then [Member(FOLDER + key, true, Data(values[key].value))] else [])
      + Files(specs[1..], values)
  }

  // `_write_tar`.
  function Write(specs: seq<Spec>, values: Values, size: nat): Archive
    requires forall i :: 0 <= i < |specs| ==> specs[i].key in values
  {
    [Member(MANIFEST, true, Document(ManifestOf(specs, values), size))] + Files(specs, values)
  }

  // ------------------------------------------------------------------- reading

  function Names(a: Archive): set<string> {
    set m | m in a :: m.name
  }

  function Size(b: Body): nat {
    match b
    case Document(_, size) => size
    case Data(bytes) => |bytes|
  }

  predicate Unsafe(m: Member) { !m.regular || Size(m.body) > MAX_FILE || !SafeName(m.name) }

  // The content of the member with this name.
  function Lookup(a: Archive, name: string): Option<Body> {
    if a == [] then None
    else if a[0].name == name then Some(a[0].body)
    else Lookup(a[1..], name)
  }

  function RecordFor(records: seq<Record>, key: string): Option<Record> {
    if records == [] then None
    else if records[0].key == key then Some(records[0])
    else RecordFor(records[1..], key)
  }

  // What the archive says about one catalogued file, and the member it comes from.
  function ReadSpec(a: Archive, records: seq<Record>, spec: Spec): Result<Option<Bytes>, Fault> {
    match RecordFor(records, spec.key)
    case None => if spec.required then Err(Refused) else Ok(None)
    case Some(record) =>
      if record.mode != spec.mode then Err(Refused)
      else if !record.present then
        if record.digest.Some? || record.size != 0 || spec.required then Err(Refused) else Ok(None)
      else match Lookup(a, FOLDER + spec.key)
        case Some(Data(bytes)) =>
          if |bytes| > MAX_FILE || |bytes| != record.size || Some(B.Sha(bytes)) != record.digest then Err(Refused)
          else Ok(Some(bytes))
        case _ => Err(Refused)
  }

  // The members a manifest asks for.
  function Expected(records: seq<Record>, specs: seq<Spec>): set<string> {
    {MANIFEST} + set s | s in specs && Present(records, s.key) :: FOLDER + s.key
  }

  predicate Present(records: seq<Record>, key: string) {
    RecordFor(records, key).Some? && RecordFor(records, key).value.present
  }

  predicate RecordsFit(records: seq<Record>, specs: seq<Spec>) {
    && |records| <= |specs|
    && (forall i, j :: 0 <= i < j < |records| ==> records[i].key != records[j].key)
    && (forall r :: r in records ==> exists s :: s in specs && s.key == r.key)
    && (forall s :: s in specs && RecordFor(records, s.key).None? ==> s.added)
  }

  predicate Readable(a: Archive, specs: seq<Spec>) {
    && |Names(a)| == |a|
    && (forall m :: m in a ==> !Unsafe(m))
    && match Lookup(a, MANIFEST)
       case Some(Document(manifest, _)) =>
         && manifest.schema == 1 && !manifest.chainData && RecordsFit(manifest.records, specs)
         && (forall s :: s in specs ==> ReadSpec(a, manifest.records, s).Ok?)
         && Names(a) == Expected(manifest.records, specs)
       case _ => false
  }

  // These are the values the archive carries.
  ghost predicate Decoded(a: Archive, specs: seq<Spec>, values: Values) {
    && Readable(a, specs)
    && values.Keys == (set s | s in specs :: s.key)
    && forall s :: s in specs ==>
         ReadSpec(a, Lookup(a, MANIFEST).value.manifest.records, s) == Ok(values[s.key])
  }

  // `_decode`, after decryption and before validation.
  method Decode(a: Archive, specs: seq<Spec>) returns (r: Result<Values, Fault>)
    ensures r.Ok? ==> Decoded(a, specs, r.value)
    ensures r.Err? ==> !Readable(a, specs)
  {
    hide Unsafe, SafeName, RecordsFit, Expected;
    if |Names(a)| != |a| || exists m :: m in a && Unsafe(m) { return Err(Refused); }
    var document := Lookup(a, MANIFEST);
    if document.None? || document.value.Data? { return Err(Refused); }
    var manifest := document.value.manifest;
    if manifest.schema != 1 || manifest.chainData || !RecordsFit(manifest.records, specs) { return Err(Refused); }
    var values: Values := map[];
    for i := 0 to |specs|
      invariant values.Keys == (set s | s in specs[..i] :: s.key)
      invariant forall s :: s in specs[..i] ==> ReadSpec(a, manifest.records, s) == Ok(values[s.key])
    {
      hide ReadSpec;
      var data := ReadSpec(a, manifest.records, specs[i]);
      if data.Err? { return Err(Refused); }
      assert specs[..i + 1] == specs[..i] + [specs[i]];
      values := values[specs[i].key := data.value];
    }
    assert specs[..|specs|] == specs;
    if Names(a) != Expected(manifest.records, specs) { return Err(Refused); }
    return Ok(values);
  }

  // ------------------------------------------------------------ names and members

  ghost predicate UniqueNames(a: Archive) {
    forall i, j :: 0 <= i < j < |a| ==> a[i].name != a[j].name
  }

  lemma UniqueHead(a: Archive)
    requires a != []
    ensures UniqueNames(a) <==> a[0].name !in Names(a[1..]) && UniqueNames(a[1..])
  {
    var rest := a[1..];
    if UniqueNames(a) {
      forall m | m in rest ensures m.name != a[0].name {
        var j :| 0 <= j < |rest| && rest[j] == m;
        assert a[j + 1] == m;
      }
      forall i, j | 0 <= i < j < |rest| ensures rest[i].name != rest[j].name {
        assert a[i + 1].name != a[j + 1].name;
      }
    }
    if a[0].name !in Names(rest) && UniqueNames(rest) {
      forall i, j | 0 <= i < j < |a| ensures a[i].name != a[j].name {
        assert a[j] == rest[j - 1] && a[j] in rest;
        if i > 0 { assert a[i] == rest[i - 1]; }
      }
    }
  }

  lemma {:induction false} CountNames(a: Archive)
    ensures |Names(a)| <= |a|
    ensures |Names(a)| == |a| <==> UniqueNames(a)
  {
    if a != [] {
      CountNames(a[1..]);
      UniqueHead(a);
      assert a == [a[0]] + a[1..];
      assert Names(a) == {a[0].name} + Names(a[1..]);
      hide UniqueNames, Names;
    }
  }

  lemma {:induction false} LookupMember(a: Archive, m: Member)
    requires UniqueNames(a) && m in a
    ensures Lookup(a, m.name) == Some(m.body)
  {
    if a[0] != m {
      var j :| 0 <= j < |a| && a[j] == m;
      assert a[0].name != m.name;
      assert a[1..][j - 1] == m;
      LookupMember(a[1..], m);
    }
  }

  lemma {:induction false} LookupFinds(a: Archive, name: string)
    ensures Lookup(a, name).Some? <==> name in Names(a)
    ensures Lookup(a, name).Some? ==> exists m :: m in a && m.name == name && m.body == Lookup(a, name).value
  {
    if a != [] {
      assert a == [a[0]] + a[1..];
      if a[0].name != name {
        LookupFinds(a[1..], name);
      } else {
        assert a[0] in a;
      }
    }
  }

  // ------------------------------------------------------------ what was written

  lemma {:induction false} RecordAt(records: seq<Record>, i: nat)
    requires i < |records| && forall j, k :: 0 <= j < k < |records| ==> records[j].key != records[k].key
    ensures RecordFor(records, records[i].key) == Some(records[i])
  {
    if i > 0 {
      RecordAt(records[1..], i - 1);
      assert records[0].key != records[i].key;
    }
  }

  lemma FileName(key: string, other: string)
    ensures FOLDER + key == FOLDER + other ==> key == other
    ensures FOLDER + key != MANIFEST
  {
    assert (FOLDER + key)[|FOLDER|..] == key && (FOLDER + other)[|FOLDER|..] == other;
    assert (FOLDER + key)[0] == 'f' && MANIFEST[0] == 'm';
  }

  // The written members are the present files, each once.
  lemma {:induction false} FilesMembers(specs: seq<Spec>, values: Values)
    requires Covers(specs, values)
    ensures forall m :: m in Files(specs, values) <==>
      exists i :: 0 <= i < |specs| && values[specs[i].key].Some?
                  && m == Member(FOLDER + specs[i].key, true, Data(values[specs[i].key].value))
  {
    if specs != [] {
      FilesMembers(specs[1..], values);
      var rest := Files(specs[1..], values);
      assert forall i :: 0 < i < |specs| ==> specs[i] == specs[1..][i - 1];
      assert forall i :: 0 <= i < |specs| - 1 ==> specs[1..][i] == specs[i + 1];
    }
  }

  lemma {:induction false} FilesUnique(specs: seq<Spec>, values: Values)
    requires Covers(specs, values) && forall i, j :: 0 <= i < j < |specs| ==> specs[i].key != specs[j].key
    ensures UniqueNames(Files(specs, values))
  {
    if specs != [] {
      var key, rest := specs[0].key, Files(specs[1..], values);
      assert forall i :: 0 <= i < |specs| - 1 ==> specs[1..][i] == specs[i + 1];
      FilesUnique(specs[1..], values);
      FilesMembers(specs[1..], values);
      forall m | m in rest ensures m.name != FOLDER + key {
        var i :| 0 <= i < |specs[1..]| && m.name == FOLDER + specs[1..][i].key;
        FileName(key, specs[i + 1].key);
      }
      forall i | 0 <= i < |rest| ensures rest[i].name != FOLDER + key { assert rest[i] in rest; }
    }
  }

  lemma WrittenUnique(specs: seq<Spec>, values: Values, size: nat)
    requires Covers(specs, values) && Catalog(specs)
    ensures UniqueNames(Write(specs, values, size))
  {
    var files := Files(specs, values);
    FilesUnique(specs, values);
    FilesMembers(specs, values);
    forall i | 0 <= i < |files| ensures files[i].name != MANIFEST {
      assert files[i] in files;
      var j :| 0 <= j < |specs| && files[i].name == FOLDER + specs[j].key;
      FileName(specs[j].key, specs[j].key);
    }
  }

  lemma WrittenLookup(specs: seq<Spec>, values: Values, size: nat, i: nat)
    requires Covers(specs, values) && Catalog(specs) && i < |specs|
    ensures var a := Write(specs, values, size);
      Lookup(a, FOLDER + specs[i].key) ==
        match values[specs[i].key]
        case None => None
        case Some(bytes) => Some(Data(bytes))
  {
    var a, key := Write(specs, values, size), specs[i].key;
    WrittenUnique(specs, values, size);
    FilesMembers(specs, values);
    FileName(key, key);
    if values[key].Some? {
      var m := Member(FOLDER + key, true, Data(values[key].value));
      assert m in Files(specs, values) && m in a;
      LookupMember(a, m);
    } else {
      LookupFinds(a, FOLDER + key);
      if FOLDER + key in Names(a) {
        var m :| m in a && m.name == FOLDER + key;
        assert m in Files(specs, values);
        var j :| 0 <= j < |specs| && values[specs[j].key].Some? && m.name == FOLDER + specs[j].key;
        FileName(key, specs[j].key);
        assert false;
      }
    }
  }

  lemma RecordsFind(specs: seq<Spec>, values: Values, i: nat)
    requires Covers(specs, values) && Catalog(specs) && i < |specs|
    ensures RecordFor(Records(specs, values), specs[i].key) == Some(RecordOf(specs[i], values[specs[i].key]))
  {
    RecordAt(Records(specs, values), i);
  }

  lemma WrittenPresent(specs: seq<Spec>, values: Values, s: Spec)
    requires Covers(specs, values) && Catalog(specs) && s in specs
    ensures Present(Records(specs, values), s.key) <==> values[s.key].Some?
  {
    var i :| 0 <= i < |specs| && specs[i] == s;
    RecordsFind(specs, values, i);
  }

  lemma WrittenMembers(specs: seq<Spec>, values: Values, size: nat, m: Member)
    requires Covers(specs, values)
    ensures m in Write(specs, values, size) <==>
      || m == Member(MANIFEST, true, Document(ManifestOf(specs, values), size))
      || exists i :: 0 <= i < |specs| && values[specs[i].key].Some? && m == FileMember(specs[i].key, values)
  {
    FilesMembers(specs, values);
  }

  function FileMember(key: string, values: Values): Member
    requires key in values && values[key].Some?
  {
    Member(FOLDER + key, true, Data(values[key].value))
  }

  lemma NameWritten(specs: seq<Spec>, values: Values, size: nat, s: Spec)
    requires Covers(specs, values) && s in specs && values[s.key].Some?
    ensures FOLDER + s.key in Names(Write(specs, values, size))
  {
    var i :| 0 <= i < |specs| && specs[i] == s;
    WrittenMembers(specs, values, size, FileMember(s.key, values));
  }

  lemma NameExpected(specs: seq<Spec>, values: Values, size: nat, m: Member)
    requires Covers(specs, values) && Catalog(specs) && m in Write(specs, values, size)
    ensures m.name in Expected(Records(specs, values), specs)
  {
    WrittenMembers(specs, values, size, m);
    hide Write, Present, Records;
    if m.name != MANIFEST {
      var i :| 0 <= i < |specs| && values[specs[i].key].Some? && m == FileMember(specs[i].key, values);
      assert specs[i] in specs;
      WrittenPresent(specs, values, specs[i]);
    }
  }

  lemma WrittenNames(specs: seq<Spec>, values: Values, size: nat)
    requires Covers(specs, values) && Catalog(specs)
    ensures Names(Write(specs, values, size)) == Expected(Records(specs, values), specs)
  {
    var a, records := Write(specs, values, size), Records(specs, values);
    assert a[0] in a;
    hide Present, Records, Write, MANIFEST, FOLDER;
    forall name | name in Expected(records, specs) && name != MANIFEST ensures name in Names(a) {
      var s :| s in specs && Present(records, s.key) && name == FOLDER + s.key;
      WrittenPresent(specs, values, s);
      NameWritten(specs, values, size, s);
    }
    forall m | m in a ensures m.name in Expected(records, specs) { NameExpected(specs, values, size, m); }
  }

  // ----------------------------------------------------------------- round trip

  // What `_read_file` and the catalog guarantee of a snapshot.
  ghost predicate Fits(specs: seq<Spec>, values: Values, size: nat)
    requires Covers(specs, values)
  {
    && size <= MAX_FILE
    && forall i :: 0 <= i < |specs| ==>
         match values[specs[i].key]
         case None => !specs[i].required
         case Some(bytes) => |bytes| <= MAX_FILE
  }

  // The written content, where it may be read back.
  function Allowed(spec: Spec, data: Option<Bytes>): Result<Option<Bytes>, Fault> {
    match data
    case None => if spec.required then Err(Refused) else Ok(None)
    case Some(bytes) => if |bytes| > MAX_FILE then Err(Refused) else Ok(data)
  }

  lemma WrittenReads(specs: seq<Spec>, values: Values, size: nat, i: nat)
    requires Covers(specs, values) && Catalog(specs) && i < |specs|
    ensures ReadSpec(Write(specs, values, size), Records(specs, values), specs[i])
         == Allowed(specs[i], values[specs[i].key])
  {
    RecordsFind(specs, values, i);
    WrittenLookup(specs, values, size, i);
  }

  lemma ManifestSafe()
    ensures SafeName(MANIFEST)
  {
    assert '/' !in MANIFEST;
    hide StartsWith;
    SplitSingle(MANIFEST, '/');
    hide Split;
    assert |MANIFEST| != |".."|;
    NotSlash();
  }

  lemma NotSlash()
    ensures !StartsWith(MANIFEST, "/")
  {
    assert MANIFEST[..1][0] == MANIFEST[0] == 'm';
  }

  lemma FileSafe(specs: seq<Spec>, values: Values, i: nat)
    requires Covers(specs, values) && Catalog(specs) && i < |specs| && values[specs[i].key].Some?
    ensures Unsafe(FileMember(specs[i].key, values)) <==> |values[specs[i].key].value| > MAX_FILE
  {
    hide SafeName;
  }

  lemma WrittenSafe(specs: seq<Spec>, values: Values, size: nat)
    requires Covers(specs, values) && Catalog(specs)
    ensures (forall m :: m in Write(specs, values, size) ==> !Unsafe(m)) <==>
      size <= MAX_FILE && forall i :: 0 <= i < |specs| && values[specs[i].key].Some? ==>
        |values[specs[i].key].value| <= MAX_FILE
  {
    var a, first := Write(specs, values, size), Member(MANIFEST, true, Document(ManifestOf(specs, values), size));
    ManifestSafe();
    assert Unsafe(first) <==> size > MAX_FILE;
    assert first in a by { WrittenMembers(specs, values, size, first); }
    hide SafeName, Write, ManifestOf, MANIFEST, Unsafe, FileMember;
    forall i | 0 <= i < |specs| && values[specs[i].key].Some?
      ensures var m := FileMember(specs[i].key, values);
        m in a && (Unsafe(m) <==> |values[specs[i].key].value| > MAX_FILE)
    {
      FileSafe(specs, values, i);
      WrittenMembers(specs, values, size, FileMember(specs[i].key, values));
    }
    forall m | m in a ensures m == first
      || exists i :: 0 <= i < |specs| && values[specs[i].key].Some? && m == FileMember(specs[i].key, values)
    {
      WrittenMembers(specs, values, size, m);
    }
  }

  lemma RecordsNamed(specs: seq<Spec>, values: Values, r: Record)
    requires Covers(specs, values) && r in Records(specs, values)
    ensures exists s :: s in specs && s.key == r.key
  {
    var records := Records(specs, values);
    var i :| 0 <= i < |records| && records[i] == r;
    assert specs[i] in specs;
  }

  lemma WrittenRecordsFit(specs: seq<Spec>, values: Values)
    requires Covers(specs, values) && Catalog(specs)
    ensures RecordsFit(Records(specs, values), specs)
  {
    var records := Records(specs, values);
    hide RecordFor, Records;
    forall r | r in records ensures exists s :: s in specs && s.key == r.key { RecordsNamed(specs, values, r); }
    forall s | s in specs ensures RecordFor(records, s.key).Some? {
      var i :| 0 <= i < |specs| && specs[i] == s;
      RecordsFind(specs, values, i);
    }
  }

  lemma AllWrittenRead(specs: seq<Spec>, values: Values, size: nat)
    requires Covers(specs, values) && Catalog(specs)
    ensures forall s :: s in specs ==>
      ReadSpec(Write(specs, values, size), Records(specs, values), s) == Allowed(s, values[s.key])
  {
    hide ReadSpec, Write, Records, Allowed;
    forall s | s in specs
      ensures ReadSpec(Write(specs, values, size), Records(specs, values), s) == Allowed(s, values[s.key])
    {
      var i :| 0 <= i < |specs| && specs[i] == s;
      WrittenReads(specs, values, size, i);
    }
  }

  lemma WrittenReadable(specs: seq<Spec>, values: Values, size: nat)
    requires Covers(specs, values) && Catalog(specs)
    ensures var a := Write(specs, values, size);
      Readable(a, specs) <==>
        (forall m :: m in a ==> !Unsafe(m)) && forall s :: s in specs ==> Allowed(s, values[s.key]).Ok?
  {
    var a := Write(specs, values, size);
    WrittenUnique(specs, values, size);
    CountNames(a);
    WrittenRecordsFit(specs, values);
    WrittenNames(specs, values, size);
    AllWrittenRead(specs, values, size);
    WrittenManifest(specs, values, size);
    hide Unsafe, RecordsFit, Expected, ReadSpec, Lookup, Write, Records, MANIFEST, Allowed, UniqueNames, Names;
  }

  lemma WrittenManifest(specs: seq<Spec>, values: Values, size: nat)
    requires Covers(specs, values)
    ensures Lookup(Write(specs, values, size), MANIFEST) == Some(Document(ManifestOf(specs, values), size))
  {
  }

  lemma AllAllowed(specs: seq<Spec>, values: Values, size: nat)
    requires Covers(specs, values)
    ensures Fits(specs, values, size) <==>
      && size <= MAX_FILE
      && (forall i :: 0 <= i < |specs| && values[specs[i].key].Some? ==> |values[specs[i].key].value| <= MAX_FILE)
      && (forall s :: s in specs ==> Allowed(s, values[s.key]).Ok?)
  {
    assert forall i :: 0 <= i < |specs| ==> specs[i] in specs;
  }

  // An archive reads back exactly when the required files are there and nothing is over
  // the size limit.
  lemma ArchiveReadable(specs: seq<Spec>, values: Values, size: nat)
    requires Covers(specs, values) && Catalog(specs)
    ensures Readable(Write(specs, values, size), specs) <==> Fits(specs, values, size)
  {
    WrittenReadable(specs, values, size);
    WrittenSafe(specs, values, size);
    AllAllowed(specs, values, size);
    hide Unsafe, Write, Readable, Fits, Allowed;
  }

  // What is read is what was written.
  lemma ArchiveRoundTrip(specs: seq<Spec>, values: Values, size: nat, read: Values)
    requires Covers(specs, values) && Catalog(specs)
    ensures Decoded(Write(specs, values, size), specs, read) ==>
      read.Keys == (set s | s in specs :: s.key) && forall s :: s in specs ==> read[s.key] == values[s.key]
  {
    AllWrittenRead(specs, values, size);
    WrittenManifest(specs, values, size);
    hide Unsafe, ReadSpec, Lookup, Write, Records, MANIFEST, Readable;
  }

  // ------------------------------------------------------------------- tampering

  // A file read under the written manifest is the written file.
  lemma ReadUnderManifest(b: Archive, specs: seq<Spec>, values: Values, s: Spec)
    requires Covers(specs, values) && Catalog(specs) && s in specs
    requires ReadSpec(b, Records(specs, values), s).Ok?
    ensures ReadSpec(b, Records(specs, values), s).value == values[s.key]
    ensures values[s.key].Some? ==> Lookup(b, FOLDER + s.key) == Some(Data(values[s.key].value))
  {
    var i :| 0 <= i < |specs| && specs[i] == s;
    RecordsFind(specs, values, i);
    hide Lookup, Records;
  }

  ghost predicate SameManifest(b: Archive, specs: seq<Spec>, values: Values, size: nat)
    requires forall i :: 0 <= i < |specs| ==> specs[i].key in values
  {
    Lookup(b, MANIFEST) == Some(Document(ManifestOf(specs, values), size))
  }

  lemma MemberRead(b: Archive, specs: seq<Spec>, m: Member)
    requires Readable(b, specs) && m in b
    ensures Lookup(b, m.name) == Some(m.body) && m.regular
    ensures m.name in Expected(Lookup(b, MANIFEST).value.manifest.records, specs)
  {
    CountNames(b);
    LookupMember(b, m);
    assert m.name in Names(b) && !Unsafe(m);
  }

  lemma FileUnderManifest(b: Archive, specs: seq<Spec>, values: Values, size: nat, m: Member, s: Spec)
    requires Covers(specs, values) && Catalog(specs) && s in specs && Present(Records(specs, values), s.key)
    requires ReadSpec(b, Records(specs, values), s).Ok?
    requires m.regular && m.name == FOLDER + s.key && Lookup(b, m.name) == Some(m.body)
    ensures m in Write(specs, values, size)
  {
    hide Lookup, Records, Present, ReadSpec, FOLDER, Catalog, Write;
    WrittenPresent(specs, values, s);
    ReadUnderManifest(b, specs, values, s);
    var i :| 0 <= i < |specs| && specs[i] == s;
    assert m == FileMember(specs[i].key, values);
    WrittenMembers(specs, values, size, m);
  }

  // Every accepted member under the written manifest is a written member.
  lemma MemberUnderManifest(b: Archive, specs: seq<Spec>, values: Values, size: nat, m: Member)
    requires Covers(specs, values) && Catalog(specs) && Readable(b, specs) && SameManifest(b, specs, values, size)
    requires m in b
    ensures m in Write(specs, values, size)
  {
    hide Lookup, Records, Present, ReadSpec, MANIFEST, FOLDER, Catalog, Write, Unsafe, RecordsFit;
    MemberRead(b, specs, m);
    if m.name == MANIFEST {
      WrittenMembers(specs, values, size, m);
    } else {
      var s :| s in specs && Present(Records(specs, values), s.key) && m.name == FOLDER + s.key;
      FileUnderManifest(b, specs, values, size, m, s);
    }
  }

  ghost predicate SameMembers(a: Archive, b: Archive) {
    |a| == |b| && forall m :: m in a <==> m in b
  }

  // With the manifest unchanged, an archive is accepted only as a reordering of what was
  // written: nothing missing, extra, duplicated or altered; and it reads the same.
  lemma TamperedIsRefused(b: Archive, specs: seq<Spec>, values: Values, size: nat, read: Values)
    requires Covers(specs, values) && Catalog(specs)
    ensures SameManifest(b, specs, values, size) && Decoded(b, specs, read) ==>
      SameMembers(b, Write(specs, values, size)) && forall s :: s in specs ==> read[s.key] == values[s.key]
  {
    if SameManifest(b, specs, values, size) && Decoded(b, specs, read) {
      AcceptedIsWritten(b, specs, values, size, read);
    }
  }

  lemma AcceptedIsWritten(b: Archive, specs: seq<Spec>, values: Values, size: nat, read: Values)
    requires Covers(specs, values) && Catalog(specs) && SameManifest(b, specs, values, size)
    requires Decoded(b, specs, read)
    ensures SameMembers(b, Write(specs, values, size))
    ensures forall s :: s in specs ==> read[s.key] == values[s.key]
  {
    var a := Write(specs, values, size);
    WrittenUnique(specs, values, size);
    WrittenNames(specs, values, size);
    CountNames(a);
    CountNames(b);
    assert Names(b) == Names(a);
    hide Write, Lookup, ReadSpec, Records, RecordsFit, Expected, Unsafe;
    forall s | s in specs ensures read[s.key] == values[s.key] { ReadUnderManifest(b, specs, values, s); }
    forall m | m in b ensures m in a { MemberUnderManifest(b, specs, values, size, m); }
    forall m | m in a ensures m in b {
      assert m.name in Names(b);
      var other :| other in b && other.name == m.name;
      MemberUnderManifest(b, specs, values, size, other);
      SameName(a, m, other);
    }
  }

  lemma SameName(a: Archive, m: Member, other: Member)
    requires UniqueNames(a) && m in a && other in a && m.name == other.name
    ensures m == other
  {
    var i :| 0 <= i < |a| && a[i] == m;
    var j :| 0 <= j < |a| && a[j] == other;
  }

  lemma LookupSame(a: Archive, b: Archive, name: string)
    requires UniqueNames(a) && UniqueNames(b) && forall m :: m in a <==> m in b
    ensures Lookup(a, name) == Lookup(b, name)
  {
    assert Names(a) == Names(b);
    LookupFinds(a, name);
    LookupFinds(b, name);
    if Lookup(a, name).Some? {
      var m :| m in a && m.name == name;
      LookupMember(a, m);
      LookupMember(b, m);
    }
  }

  lemma ReadSpecSame(a: Archive, b: Archive, records: seq<Record>, spec: Spec)
    requires UniqueNames(a) && UniqueNames(b) && forall m :: m in a <==> m in b
    ensures ReadSpec(a, records, spec) == ReadSpec(b, records, spec)
  {
    LookupSame(a, b, FOLDER + spec.key);
    hide Lookup, RecordFor;
  }

  lemma NamesSame(a: Archive, b: Archive)
    requires SameMembers(a, b) && UniqueNames(a)
    ensures Names(a) == Names(b) && |Names(b)| == |b| && UniqueNames(b)
  {
    assert Names(a) == Names(b);
    CountNames(a);
    CountNames(b);
  }

  // And every reordering of a readable archive is readable.
  lemma ReorderedIsRead(a: Archive, b: Archive, specs: seq<Spec>)
    requires SameMembers(a, b)
    ensures Readable(a, specs) ==> Readable(b, specs)
    ensures forall read :: Decoded(a, specs, read) ==> Decoded(b, specs, read)
  {
    if Readable(a, specs) { ReadableIsRead(a, b, specs); }
  }

  lemma ReadableIsRead(a: Archive, b: Archive, specs: seq<Spec>)
    requires SameMembers(a, b) && Readable(a, specs)
    ensures Readable(b, specs)
    ensures forall read :: Decoded(a, specs, read) ==> Decoded(b, specs, read)
  {
    CountNames(a);
    NamesSame(a, b);
    LookupSame(a, b, MANIFEST);
    hide Lookup, Unsafe, RecordsFit, Expected, Names, UniqueNames, RecordFor, ReadSpec, MANIFEST;
    var records := Lookup(a, MANIFEST).value.manifest.records;
    forall s | s in specs ensures ReadSpec(b, records, s) == ReadSpec(a, records, s) {
      ReadSpecSame(a, b, records, s);
    }
  }
}
