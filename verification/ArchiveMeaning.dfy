// When an archive is read, and what is read from it, said of its members alone.
module ArchiveMeaning {
  import opened Common
  import opened Strings
  import B = BackupRestore
  import opened BackupArchive

  // A plain file of at most two mebibytes, with a name that stays below its folder.
  predicate Plain(m: Member) {
    && m.regular && (match m.body case Document(_, size) => size case Data(bytes) => |bytes|) <= 2_097_152
    && (m.name == "" || m.name[0] != '/') && ".." !in Split(m.name, '/')
  }

  ghost predicate OwnKeys(records: seq<Record>) {
    forall i, j :: 0 <= i < j < |records| ==> records[i].key != records[j].key
  }

  // The archive answers for this file: with a content that its record describes, with a
  // record of its absence, or, where settings were added later, with no record at all.
  ghost predicate AnswersFor(a: Archive, records: seq<Record>, s: Spec) {
    || (s.added && forall r :: r in records ==> r.key != s.key)
    || exists r :: r in records && r.key == s.key && r.mode == s.mode && Describes(a, r, s)
  }

  ghost predicate Describes(a: Archive, r: Record, s: Spec) {
    if r.present then exists m :: m in a && m.name == FOLDER + s.key && ContentOf(m, r)
    else !s.required && r.digest.None? && r.size == 0
  }

  predicate ContentOf(m: Member, r: Record) {
    m.body.Data? && |m.body.bytes| == r.size && r.digest == Some(B.Sha(m.body.bytes))
  }

  // The member is the manifest or a file it lists as present.
  ghost predicate Listed(records: seq<Record>, m: Member) {
    m.name == "manifest.json" || exists r :: r in records && r.present && m.name == FOLDER + r.key
  }

  ghost predicate AllKnown(records: seq<Record>, specs: seq<Spec>) {
    forall r :: r in records ==> exists s :: s in specs && s.key == r.key
  }

  ghost predicate AllAnswered(a: Archive, records: seq<Record>, specs: seq<Spec>) {
    forall s :: s in specs ==> AnswersFor(a, records, s)
  }

  ghost predicate AllListed(a: Archive, records: seq<Record>) { forall m :: m in a ==> Listed(records, m) }

  // The manifest describes the installed catalog and every member.
  ghost predicate Describing(a: Archive, specs: seq<Spec>, manifest: Manifest) {
    && manifest.schema == 1 && !manifest.chainData
    && OwnKeys(manifest.records) && AllKnown(manifest.records, specs)
    && AllAnswered(a, manifest.records, specs) && AllListed(a, manifest.records)
  }

  ghost predicate AllPlain(a: Archive) { forall m :: m in a ==> Plain(m) }

  ghost predicate AllRead(a: Archive, records: seq<Record>, specs: seq<Spec>) {
    forall s :: s in specs ==> ReadSpec(a, records, s).Ok?
  }

  ghost predicate MissingAdded(records: seq<Record>, specs: seq<Spec>) {
    forall s :: s in specs && RecordFor(records, s.key).None? ==> s.added
  }

  lemma {:induction false} RecordForExactly(records: seq<Record>, key: string)
    requires OwnKeys(records)
    ensures RecordFor(records, key).None? <==> forall r :: r in records ==> r.key != key
    ensures forall r :: RecordFor(records, key) == Some(r) <==> r in records && r.key == key
  {
    if records != [] {
      var rest := records[1..];
      assert records == [records[0]] + rest;
      assert OwnKeys(rest) by {
        forall i, j | 0 <= i < j < |rest| ensures rest[i].key != rest[j].key {
          assert records[i + 1].key != records[j + 1].key;
        }
      }
      RecordForExactly(rest, key);
      forall r | r in rest ensures r.key != records[0].key {
        var j :| 0 <= j < |rest| && rest[j] == r;
        assert records[0].key != records[j + 1].key;
      }
    }
  }

  lemma LookupExactly(a: Archive, name: string)
    requires UniqueNames(a)
    ensures forall b :: Lookup(a, name) == Some(b) <==> exists m :: m in a && m.name == name && m.body == b
  {
    LookupFinds(a, name);
    forall m | m in a && m.name == name ensures Lookup(a, name) == Some(m.body) { LookupMember(a, m); }
    hide Lookup, UniqueNames;
  }

  lemma PlainExactly(m: Member)
    ensures Unsafe(m) <==> !Plain(m)
  {
    assert MAX_FILE == 2_097_152;
    assert StartsWith(m.name, "/") <==> m.name != "" && m.name[0] == '/' by {
      if m.name != "" { assert m.name[..1] == [m.name[0]]; }
    }
    hide StartsWith, Split;
  }

  lemma ContentExactly(a: Archive, r: Record, s: Spec)
    requires UniqueNames(a) && (forall m :: m in a ==> Plain(m)) && r.present
    ensures Describes(a, r, s) <==>
      match Lookup(a, FOLDER + s.key)
      case Some(Data(bytes)) => |bytes| <= MAX_FILE && |bytes| == r.size && r.digest == Some(B.Sha(bytes))
      case _ => false
  {
    LookupExactly(a, FOLDER + s.key);
    LookupFinds(a, FOLDER + s.key);
    assert MAX_FILE == 2_097_152;
    hide Lookup, UniqueNames, FOLDER, Names, Split;
    forall m | m in a && m.name == FOLDER + s.key ensures Lookup(a, FOLDER + s.key) == Some(m.body) {}
  }

  lemma SpecExactly(a: Archive, records: seq<Record>, s: Spec)
    requires UniqueNames(a) && OwnKeys(records) && (forall m :: m in a ==> Plain(m)) && !(s.added && s.required)
    ensures ReadSpec(a, records, s).Ok? && (RecordFor(records, s.key).None? ==> s.added) <==> AnswersFor(a, records, s)
  {
    RecordForExactly(records, s.key);
    hide Lookup, UniqueNames, OwnKeys, RecordFor, FOLDER, MAX_FILE, Plain;
    if RecordFor(records, s.key).Some? {
      var r := RecordFor(records, s.key).value;
      assert AnswersFor(a, records, s) <==> r.mode == s.mode && Describes(a, r, s);
      if r.present { ContentExactly(a, r, s); }
    }
  }

  // The content that is read is the member's.
  lemma SpecReads(a: Archive, records: seq<Record>, s: Spec)
    requires UniqueNames(a) && OwnKeys(records) && ReadSpec(a, records, s).Ok?
    ensures forall b ::
      ReadSpec(a, records, s).value == Some(b) <==>
        (exists r :: r in records && r.key == s.key && r.present)
        && exists m :: m in a && m.name == FOLDER + s.key && m.body == Data(b)
  {
    RecordForExactly(records, s.key);
    LookupExactly(a, FOLDER + s.key);
    hide Lookup, UniqueNames, OwnKeys, RecordFor, FOLDER, MAX_FILE;
  }

  lemma RecordsExactly(records: seq<Record>, specs: seq<Spec>)
    requires Catalog(specs)
    ensures RecordsFit(records, specs) <==>
      OwnKeys(records) && AllKnown(records, specs) && MissingAdded(records, specs)
  {
    if OwnKeys(records) && AllKnown(records, specs) {
      NoMoreRecords(records, set s | s in specs :: s.key);
      KeysOf(specs);
    }
    hide RecordFor;
  }

  lemma {:induction false} NoMoreRecords(records: seq<Record>, keys: set<string>)
    requires OwnKeys(records) && forall r :: r in records ==> r.key in keys
    ensures |records| <= |keys|
  {
    if records != [] {
      var rest, last := records[..|records| - 1], records[|records| - 1];
      assert records == rest + [last];
      forall r | r in rest ensures r.key in keys - {last.key} {
        var i :| 0 <= i < |rest| && rest[i] == r;
        assert records[i].key != records[|rest|].key;
      }
      NoMoreRecords(rest, keys - {last.key});
    }
  }

  lemma {:induction false} KeysOf(specs: seq<Spec>)
    ensures |set s | s in specs :: s.key| <= |specs|
  {
    if specs != [] {
      var rest, last := specs[..|specs| - 1], specs[|specs| - 1];
      assert specs == rest + [last];
      KeysOf(rest);
      assert (set s | s in specs :: s.key) == (set s | s in rest :: s.key) + {last.key};
    }
  }

  lemma PresentExactly(records: seq<Record>, key: string)
    requires OwnKeys(records)
    ensures Present(records, key) <==> exists r :: r in records && r.present && r.key == key
  {
    RecordForExactly(records, key);
  }

  lemma MembersExactly(a: Archive, records: seq<Record>, specs: seq<Spec>)
    requires OwnKeys(records) && AllKnown(records, specs) && MANIFEST in Names(a)
    requires forall s :: s in specs && Present(records, s.key) ==> FOLDER + s.key in Names(a)
    ensures Names(a) == Expected(records, specs) <==> AllListed(a, records)
  {
    assert MANIFEST == "manifest.json";
    hide Present, FOLDER, MANIFEST;
    forall key ensures Present(records, key) <==> exists r :: r in records && r.present && r.key == key {
      PresentExactly(records, key);
    }
    forall m | m in a ensures Listed(records, m) <==> m.name in Expected(records, specs) {
      if m.name in Expected(records, specs) && m.name != MANIFEST {
        var s :| s in specs && Present(records, s.key) && m.name == FOLDER + s.key;
      }
    }
    assert forall name :: name in Expected(records, specs) ==> name in Names(a);
  }

  lemma FilesNamed(a: Archive, records: seq<Record>, specs: seq<Spec>)
    requires UniqueNames(a) && OwnKeys(records) && AllAnswered(a, records, specs)
    ensures forall s :: s in specs && Present(records, s.key) ==> FOLDER + s.key in Names(a)
  {
    forall s | s in specs && Present(records, s.key) ensures FOLDER + s.key in Names(a) {
      RecordForExactly(records, s.key);
      hide FOLDER, ContentOf;
      var r :| r in records && r.key == s.key && r.mode == s.mode && Describes(a, r, s);
      assert RecordFor(records, s.key) == Some(r);
    }
  }

  lemma AnsweredExactly(a: Archive, records: seq<Record>, specs: seq<Spec>)
    requires Catalog(specs) && UniqueNames(a) && OwnKeys(records) && AllPlain(a)
    ensures AllAnswered(a, records, specs) <==> AllRead(a, records, specs) && MissingAdded(records, specs)
  {
    hide ReadSpec, AnswersFor, RecordFor, UniqueNames, OwnKeys, Plain;
    forall s | s in specs
      ensures ReadSpec(a, records, s).Ok? && (RecordFor(records, s.key).None? ==> s.added) <==> AnswersFor(a, records, s)
    {
      assert !(s.added && s.required);
      SpecExactly(a, records, s);
    }
  }

  ghost predicate ReadWith(a: Archive, specs: seq<Spec>, manifest: Manifest) {
    && manifest.schema == 1 && !manifest.chainData && RecordsFit(manifest.records, specs)
    && AllRead(a, manifest.records, specs) && Names(a) == Expected(manifest.records, specs)
  }

  lemma DescribingExactly(a: Archive, specs: seq<Spec>, manifest: Manifest)
    requires Catalog(specs) && UniqueNames(a) && AllPlain(a) && MANIFEST in Names(a)
    ensures Describing(a, specs, manifest) <==> ReadWith(a, specs, manifest)
  {
    var records := manifest.records;
    hide UniqueNames, AllPlain, Catalog, RecordsFit, Expected, Names, MANIFEST;
    hide OwnKeys, FOLDER, Present, AllKnown, AllAnswered, AllRead, AllListed, MissingAdded;
    RecordsExactly(records, specs);
    if OwnKeys(records) {
      AnsweredExactly(a, records, specs);
      if AllAnswered(a, records, specs) && AllKnown(records, specs) {
        FilesNamed(a, records, specs);
        MembersExactly(a, records, specs);
      }
    }
  }

  lemma SafeExactly(a: Archive)
    ensures (forall m :: m in a ==> !Unsafe(m)) <==> AllPlain(a)
  {
    hide Unsafe, Plain;
    forall m | m in a ensures Unsafe(m) <==> !Plain(m) { PlainExactly(m); }
  }

  lemma ReadableParts(a: Archive, specs: seq<Spec>)
    ensures Readable(a, specs) <==>
      && UniqueNames(a) && AllPlain(a)
      && Lookup(a, MANIFEST).Some? && Lookup(a, MANIFEST).value.Document?
      && ReadWith(a, specs, Lookup(a, MANIFEST).value.manifest)
  {
    CountNames(a);
    SafeExactly(a);
    hide Unsafe, Plain, RecordsFit, ReadSpec, Expected, MANIFEST, UniqueNames, Lookup, Names, AllPlain;
  }

  // An archive is read exactly if its names are distinct, every member is plain, and its
  // manifest describes the installed catalog and all of the members.
  lemma ReadableExactly(a: Archive, specs: seq<Spec>)
    requires Catalog(specs)
    ensures Readable(a, specs) <==>
      && UniqueNames(a) && AllPlain(a)
      && exists m :: m in a && m.name == "manifest.json" && m.body.Document? && Describing(a, specs, m.body.manifest)
  {
    hide Readable, ReadWith, Describing, Catalog, UniqueNames, Lookup, AllPlain, Names;
    ReadableParts(a, specs);
    assert MANIFEST == "manifest.json";
    hide MANIFEST;
    if UniqueNames(a) && AllPlain(a) {
      LookupFinds(a, MANIFEST);
      if MANIFEST in Names(a) {
        var m :| m in a && m.name == MANIFEST && m.body == Lookup(a, MANIFEST).value;
        if m.body.Document? { DescribingExactly(a, specs, m.body.manifest); }
        OneManifest(a, m);
      }
      forall m | m in a ensures m.name in Names(a) { NamedIn(a, m); }
    }
  }

  lemma NamedIn(a: Archive, m: Member)
    requires m in a
    ensures m.name in Names(a)
  {
  }

  lemma OneManifest(a: Archive, m: Member)
    requires UniqueNames(a) && m in a
    ensures forall n :: n in a && n.name == m.name ==> n == m
  {
  }

  lemma MemberHasRecord(a: Archive, specs: seq<Spec>, key: string, m: Member)
    requires Catalog(specs) && Readable(a, specs) && m in a && m.name == FOLDER + key
    ensures Present(Lookup(a, MANIFEST).value.manifest.records, key)
  {
    hide Unsafe, RecordsFit, ReadSpec, Present, FOLDER, MANIFEST, Catalog, UniqueNames, Lookup;
    NamedIn(a, m);
    FileName(key, key);
    var records := Lookup(a, MANIFEST).value.manifest.records;
    var t :| t in specs && Present(records, t.key) && m.name == FOLDER + t.key;
    FileName(key, t.key);
  }

  lemma ReadRecords(a: Archive, specs: seq<Spec>)
    requires Catalog(specs) && Readable(a, specs)
    ensures UniqueNames(a) && OwnKeys(Lookup(a, MANIFEST).value.manifest.records)
  {
    ReadableParts(a, specs);
    hide Readable, AllRead, AllPlain, Catalog, UniqueNames, Lookup, Names, Expected, RecordsFit, OwnKeys, MANIFEST;
    RecordsExactly(Lookup(a, MANIFEST).value.manifest.records, specs);
  }

  ghost predicate Holds(a: Archive, name: string, b: Bytes) {
    exists m :: m in a && m.name == name && m.body == Data(b)
  }

  lemma HeldIsPresent(a: Archive, specs: seq<Spec>, key: string, b: Bytes)
    requires Catalog(specs) && Readable(a, specs) && Holds(a, FOLDER + key, b)
    ensures Present(Lookup(a, MANIFEST).value.manifest.records, key)
  {
    hide Readable, Present, FOLDER, MANIFEST, Catalog, Lookup;
    var m :| m in a && m.name == FOLDER + key && m.body == Data(b);
    MemberHasRecord(a, specs, key, m);
  }

  lemma SpecHeld(a: Archive, records: seq<Record>, s: Spec, b: Bytes)
    requires UniqueNames(a) && OwnKeys(records) && ReadSpec(a, records, s).Ok?
    ensures ReadSpec(a, records, s).value == Some(b) <==> Present(records, s.key) && Holds(a, FOLDER + s.key, b)
  {
    hide ReadSpec, Present, FOLDER, UniqueNames, OwnKeys;
    SpecReads(a, records, s);
    PresentExactly(records, s.key);
  }

  // What is read of a file is the content of the member of its name, if there is one.
  lemma DecodedExactly(a: Archive, specs: seq<Spec>, values: Values, s: Spec, b: Bytes)
    requires Catalog(specs) && Decoded(a, specs, values) && s in specs
    ensures values[s.key] == Some(b) <==> Holds(a, "files/" + s.key, b)
  {
    var records := Lookup(a, MANIFEST).value.manifest.records;
    assert FOLDER == "files/";
    assert ReadSpec(a, records, s) == Ok(values[s.key]);
    hide Readable, ReadSpec, Present, FOLDER, MANIFEST, Catalog, UniqueNames, Lookup, OwnKeys, Holds;
    ReadRecords(a, specs);
    SpecHeld(a, records, s, b);
    if Holds(a, FOLDER + s.key, b) { HeldIsPresent(a, specs, s.key, b); }
  }
}
