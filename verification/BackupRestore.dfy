// Restoring a backup over the device's configuration: a rollback folder, a journal and
// in-place file replacement, recovered after any number of crashes and errors.
module BackupRestore {
  import opened Common

  // A byte string, one character a byte.
  type Bytes = string
  type Path = string
  type Tree = map<Path, Bytes>
  // What was read under each key; None for an absent file.
  type Values = map<string, Option<Bytes>>

  // SHA-256, as an injective function of the content.
  datatype Digest = Sha(content: Bytes)

  datatype Spec = Spec(key: string, path: Path)

  // One line of a rollback manifest: a catalog key or a cleanup path.
  datatype Entry = Entry(key: string, present: bool, digest: Option<Digest>)
  datatype Manifest = Manifest(entries: seq<Entry>, cleanup: seq<Entry>)
  datatype Blob = FileBlob(index: nat) | CleanupBlob(index: nat)
  datatype Folder = Folder(blobs: map<Blob, Bytes>, manifest: Option<Manifest>)

  datatype Phase = Prepared | Applying | RollingBack | Committed | RolledBack
  datatype Journal = Journal(phase: Phase, digest: Digest, rollback: string)

  // Crashed: nothing after this step is executed. Failed: an exception.
  datatype Fault = Crashed | Failed | Changed | Interrupted | Invalid
  type Status = Result<(), Fault>

  predicate Active(j: Option<Journal>) {
    j.Some? && j.value.phase in {Prepared, Applying, RollingBack}
  }

  function Content(files: Tree, p: Path): Option<Bytes> {
    if p in files then Some(files[p]) else None
  }

  function Put(files: Tree, p: Path, data: Option<Bytes>): Tree {
    match data
    case None => files - {p}
    case Some(bytes) => files[p := bytes]
  }

  function EntryOf(key: string, data: Option<Bytes>): Entry {
    match data
    case None => Entry(key, false, None)
    case Some(bytes) => Entry(key, true, Some(Sha(bytes)))
  }

  // A manifest line, checked against its key and the file beside it.
  function ReadEntry(f: Folder, e: Entry, key: string, blob: Blob): Result<Option<Bytes>, Fault> {
    if e.key != key then Err(Invalid)
    else if !e.present then Ok(None)
    else if blob !in f.blobs || e.digest != Some(Sha(f.blobs[blob])) then Err(Invalid)
    else Ok(Some(f.blobs[blob]))
  }

  function Saved(f: Folder, blob: Blob, data: Option<Bytes>): Folder {
    match data
    case None => f
    case Some(bytes) => f.(blobs := f.blobs[blob := bytes])
  }

  // The files a device keeps under the catalog, and the enrollment files a restore
  // removes; each path has one role.
  datatype Catalog = Catalog(specs: seq<Spec>, cleanup: seq<Path>) {
    ghost predicate Valid() {
      && (forall i, j :: 0 <= i < j < |specs| ==> specs[i].key != specs[j].key && specs[i].path != specs[j].path)
      && (forall i, j :: 0 <= i < j < |cleanup| ==> cleanup[i] != cleanup[j])
      && (forall i, j :: 0 <= i < |specs| && 0 <= j < |cleanup| ==> specs[i].path != cleanup[j])
    }

    ghost predicate Manages(p: Path) {
      (exists i :: 0 <= i < |specs| && specs[i].path == p) || p in cleanup
    }

    ghost predicate SameElsewhere(a: Tree, b: Tree) {
      forall p :: !Manages(p) ==> Content(a, p) == Content(b, p)
    }

    ghost predicate Covers(values: Values) {
      forall i :: 0 <= i < |specs| ==> specs[i].key in values
    }

    ghost predicate CoversCleanup(values: Values) {
      forall p :: p in cleanup ==> p in values
    }

    // These are the contents under the catalog.
    ghost predicate Read(files: Tree, values: Values) {
      Covers(values) && forall i :: 0 <= i < |specs| ==> values[specs[i].key] == Content(files, specs[i].path)
    }

    ghost predicate ReadCleanup(files: Tree, values: Values) {
      CoversCleanup(values) && forall p :: p in cleanup ==> values[p] == Content(files, p)
    }

    // The restored state: incoming contents, no enrollment files, the rest as before.
    ghost predicate Installed(files: Tree, before: Tree, incoming: Values) {
      && Covers(incoming) && Read(files, incoming)
      && (forall p :: p in cleanup ==> p !in files)
      && SameElsewhere(files, before)
    }

    // A rollback folder from which these values are read.
    ghost predicate Holds(f: Folder, values: Values, removed: Values) {
      && f.manifest.Some? && Covers(values) && CoversCleanup(removed)
      && |f.manifest.value.entries| == |specs| && |f.manifest.value.cleanup| == |cleanup|
      && (forall i :: 0 <= i < |specs| ==>
            ReadEntry(f, f.manifest.value.entries[i], specs[i].key, FileBlob(i)) == Ok(values[specs[i].key]))
      && (forall i :: 0 <= i < |cleanup| ==>
            ReadEntry(f, f.manifest.value.cleanup[i], cleanup[i], CleanupBlob(i)) == Ok(removed[cleanup[i]]))
    }

    ghost predicate Intact(f: Folder) {
      && f.manifest.Some?
      && |f.manifest.value.entries| == |specs| && |f.manifest.value.cleanup| == |cleanup|
      && (forall i :: 0 <= i < |specs| ==>
            ReadEntry(f, f.manifest.value.entries[i], specs[i].key, FileBlob(i)).Ok?)
      && (forall i :: 0 <= i < |cleanup| ==>
            ReadEntry(f, f.manifest.value.cleanup[i], cleanup[i], CleanupBlob(i)).Ok?)
    }

    // A rollback manifest of these contents.
    ghost predicate Records(m: Manifest, values: Values, removed: Values) {
      && Covers(values) && CoversCleanup(removed)
      && |m.entries| == |specs| && |m.cleanup| == |cleanup|
      && (forall i :: 0 <= i < |specs| ==> m.entries[i] == EntryOf(specs[i].key, values[specs[i].key]))
      && (forall i :: 0 <= i < |cleanup| ==> m.cleanup[i] == EntryOf(cleanup[i], removed[cleanup[i]]))
    }

    // Under the written manifest a folder is read exactly if every saved file is there as
    // it was written, and then it gives back what was written.
    lemma DamageIsRefused(f: Folder, values: Values, removed: Values)
      requires f.manifest.Some? && Records(f.manifest.value, values, removed)
      ensures Intact(f) <==>
                && (forall i :: 0 <= i < |specs| && values[specs[i].key].Some? ==>
                      FileBlob(i) in f.blobs && f.blobs[FileBlob(i)] == values[specs[i].key].value)
                && (forall i :: 0 <= i < |cleanup| && removed[cleanup[i]].Some? ==>
                      CleanupBlob(i) in f.blobs && f.blobs[CleanupBlob(i)] == removed[cleanup[i]].value)
      ensures Intact(f) <==> Holds(f, values, removed)
    {
      if Intact(f) {
        forall i | 0 <= i < |specs|
          ensures ReadEntry(f, f.manifest.value.entries[i], specs[i].key, FileBlob(i)) == Ok(values[specs[i].key])
        {
          assert ReadEntry(f, f.manifest.value.entries[i], specs[i].key, FileBlob(i)).Ok?;
        }
        forall i | 0 <= i < |cleanup|
          ensures ReadEntry(f, f.manifest.value.cleanup[i], cleanup[i], CleanupBlob(i)) == Ok(removed[cleanup[i]])
        {
          assert ReadEntry(f, f.manifest.value.cleanup[i], cleanup[i], CleanupBlob(i)).Ok?;
        }
      }
      if Holds(f, values, removed) {
        forall i | 0 <= i < |specs| && values[specs[i].key].Some?
          ensures FileBlob(i) in f.blobs && f.blobs[FileBlob(i)] == values[specs[i].key].value
        {
          assert ReadEntry(f, f.manifest.value.entries[i], specs[i].key, FileBlob(i)) == Ok(values[specs[i].key]);
        }
        forall i | 0 <= i < |cleanup| && removed[cleanup[i]].Some?
          ensures CleanupBlob(i) in f.blobs && f.blobs[CleanupBlob(i)] == removed[cleanup[i]].value
        {
          assert ReadEntry(f, f.manifest.value.cleanup[i], cleanup[i], CleanupBlob(i)) == Ok(removed[cleanup[i]]);
        }
      }
    }

    // A folder is intact exactly if its manifest names the catalog line by line, and
    // every file listed as present is beside it with the listed hash.
    lemma IntactExactly(f: Folder)
      ensures Intact(f) <==>
        && f.manifest.Some?
        && |f.manifest.value.entries| == |specs| && |f.manifest.value.cleanup| == |cleanup|
        && (forall i :: 0 <= i < |specs| ==> Beside(f, f.manifest.value.entries[i], specs[i].key, FileBlob(i)))
        && (forall i :: 0 <= i < |cleanup| ==> Beside(f, f.manifest.value.cleanup[i], cleanup[i], CleanupBlob(i)))
    {
      forall e: Entry, key, blob ensures ReadEntry(f, e, key, blob).Ok? <==> Beside(f, e, key, blob) {}
      hide ReadEntry;
    }

    predicate Beside(f: Folder, e: Entry, key: string, blob: Blob) {
      e.key == key && (e.present ==> blob in f.blobs && e.digest == Some(Sha(f.blobs[blob])))
    }

    // Every managed file is the old or the incoming one, whole.
    ghost predicate Mixed(files: Tree, before: Tree, incoming: Values) {
      && Covers(incoming) && SameElsewhere(files, before)
      && (forall i :: 0 <= i < |specs| ==>
            Content(files, specs[i].path) in {Content(before, specs[i].path), incoming[specs[i].key]})
      && (forall p :: p in cleanup ==> Content(files, p) in {Content(before, p), None})
    }

    lemma PutElsewhere(files: Tree, before: Tree, p: Path, data: Option<Bytes>)
      requires SameElsewhere(files, before) && Manages(p)
      ensures SameElsewhere(Put(files, p, data), before)
    {
      hide Manages;
    }

    // What a folder holds is one thing.
    lemma HoldsOne(f: Folder, values: Values, removed: Values, values': Values, removed': Values)
      requires Holds(f, values, removed) && Holds(f, values', removed')
      ensures forall i :: 0 <= i < |specs| ==> values[specs[i].key] == values'[specs[i].key]
      ensures forall p :: p in cleanup ==> removed[p] == removed'[p]
    {
      forall i | 0 <= i < |specs| ensures values[specs[i].key] == values'[specs[i].key] {
        assert ReadEntry(f, f.manifest.value.entries[i], specs[i].key, FileBlob(i)).value == values'[specs[i].key];
      }
      forall i | 0 <= i < |cleanup| ensures removed[cleanup[i]] == removed'[cleanup[i]] {
        assert ReadEntry(f, f.manifest.value.cleanup[i], cleanup[i], CleanupBlob(i)).value == removed'[cleanup[i]];
      }
    }

    // Files that read like the old ones everywhere are the old ones.
    lemma SameTree(files: Tree, before: Tree, values: Values, removed: Values)
      requires Read(files, values) && Read(before, values)
      requires ReadCleanup(files, removed) && ReadCleanup(before, removed)
      requires SameElsewhere(files, before)
      ensures files == before
    {
      forall p ensures Content(files, p) == Content(before, p) {
        if Manages(p) && p !in cleanup {
          var i :| 0 <= i < |specs| && specs[i].path == p;
          assert values[specs[i].key] == Content(files, p);
        }
      }
      assert forall p :: p in files ==> p in before && files[p] == before[p] by {
        forall p | p in files ensures p in before && files[p] == before[p] {
          assert Content(files, p) == Content(before, p);
        }
      }
      assert forall p :: p in before ==> p in files by {
        forall p | p in before ensures p in files { assert Content(files, p) == Content(before, p); }
      }
    }
  }

  ghost predicate KeepsFiles(f: Folder, g: Folder) {
    forall j: nat :: FileBlob(j) in f.blobs ==>
      FileBlob(j) in g.blobs && g.blobs[FileBlob(j)] == f.blobs[FileBlob(j)]
  }

  class Device {
    const catalog: Catalog
    var files: Tree
    var journal: Option<Journal>
    var folders: map<string, Folder>

    constructor (catalog: Catalog, files: Tree)
      ensures this.catalog == catalog && this.files == files && journal.None?
    {
      this.catalog := catalog;
      this.files := files;
      journal := None;
      folders := map[];
    }

    // The rollback folder still holds what these files were, and nothing outside the
    // catalog has changed since.
    ghost predicate Backed(name: string, before: Tree, values: Values, removed: Values)
      reads this
    {
      && catalog.Valid() && name in folders && catalog.Holds(folders[name], values, removed)
      && catalog.Read(before, values) && catalog.ReadCleanup(before, removed)
      && catalog.SameElsewhere(files, before)
    }

    // An unfinished restore over these files.
    ghost predicate Recoverable(before: Tree)
      reads this
    {
      Active(journal) && exists values, removed :: Backed(journal.value.rollback, before, values, removed)
    }

    ghost predicate Restored(before: Tree, incoming: Values)
      reads this
    {
      journal.Some? && journal.value.phase == Committed && catalog.Installed(files, before, incoming)
    }

    ghost predicate Undone(before: Tree)
      reads this
    {
      journal.Some? && journal.value.phase == RolledBack && files == before
    }

    // ---------------------------------------------------------------- environment

    // A crash or an error may strike here, unless the operation is left alone.
    method Trouble(calm: bool) returns (r: Status)
      ensures r.Err? ==> r.error in {Crashed, Failed}
      ensures calm ==> r.Ok?
    {
      r := *;
      if calm || (r.Err? && r.error !in {Crashed, Failed}) { r := Ok(()); }
    }

    // ------------------------------------------------------------- durable writes

    method Persist(j: Journal, calm: bool) returns (r: Status)
      modifies this`journal
      ensures journal == old(journal) || journal == Some(j)
      ensures r.Ok? ==> journal == Some(j)
      ensures r.Err? ==> r.error in {Crashed, Failed}
      ensures calm ==> r.Ok?
    {
      var _ :- Trouble(calm);
      journal := Some(j);
      r := Trouble(calm);
    }

    method WriteFile(p: Path, data: Option<Bytes>, calm: bool) returns (r: Status)
      modifies this`files
      ensures files == old(files) || files == Put(old(files), p, data)
      ensures r.Ok? ==> files == Put(old(files), p, data)
      ensures r.Err? ==> r.error in {Crashed, Failed}
      ensures calm ==> r.Ok?
    {
      var _ :- Trouble(calm);
      files := Put(files, p, data);
      r := Trouble(calm);
    }

    // `_apply_values`.
    method ApplyValues(values: Values, calm: bool, ghost before: Tree) returns (r: Status)
      requires catalog.Valid() && catalog.Covers(values) && catalog.SameElsewhere(files, before)
      modifies this`files
      ensures catalog.SameElsewhere(files, before)
      ensures r.Ok? ==> catalog.Read(files, values)
      ensures forall i :: 0 <= i < |catalog.specs| ==>
                Content(files, catalog.specs[i].path)
                  in {old(Content(files, catalog.specs[i].path)), values[catalog.specs[i].key]}
      ensures forall p :: p in catalog.cleanup ==> Content(files, p) == old(Content(files, p))
      ensures r.Err? ==> r.error in {Crashed, Failed}
      ensures calm ==> r.Ok?
    {
      var n := |catalog.specs|;
      for i := 0 to n
        invariant catalog.SameElsewhere(files, before)
        invariant forall j :: 0 <= j < i ==> Content(files, catalog.specs[j].path) == values[catalog.specs[j].key]
        invariant forall j :: i <= j < n ==>
                    Content(files, catalog.specs[j].path) == old(Content(files, catalog.specs[j].path))
        invariant forall p :: p in catalog.cleanup ==> Content(files, p) == old(Content(files, p))
      {
        var spec := catalog.specs[i];
        assert catalog.Manages(spec.path);
        catalog.PutElsewhere(files, before, spec.path, values[spec.key]);
        hide catalog.SameElsewhere, catalog.Manages;
        r := WriteFile(spec.path, values[spec.key], calm);
        if r.Err? { return; }
      }
      r := Ok(());
    }

    // `_apply_cleanup`.
    method ApplyCleanup(values: Values, restoring: bool, calm: bool, ghost before: Tree) returns (r: Status)
      requires catalog.Valid() && catalog.CoversCleanup(values) && catalog.SameElsewhere(files, before)
      modifies this`files
      ensures catalog.SameElsewhere(files, before)
      ensures r.Ok? ==> forall p :: p in catalog.cleanup ==> Content(files, p) == if restoring then None else values[p]
      ensures forall p :: p in catalog.cleanup ==>
                Content(files, p) in {old(Content(files, p)), if restoring then None else values[p]}
      ensures forall i :: 0 <= i < |catalog.specs| ==>
                Content(files, catalog.specs[i].path) == old(Content(files, catalog.specs[i].path))
      ensures r.Err? ==> r.error in {Crashed, Failed}
      ensures calm ==> r.Ok?
    {
      var n := |catalog.cleanup|;
      for i := 0 to n
        invariant catalog.SameElsewhere(files, before)
        invariant forall j :: 0 <= j < i ==>
                    Content(files, catalog.cleanup[j]) == if restoring then None else values[catalog.cleanup[j]]
        invariant forall j :: i <= j < n ==>
                    Content(files, catalog.cleanup[j]) == old(Content(files, catalog.cleanup[j]))
        invariant forall j :: 0 <= j < |catalog.specs| ==>
                    Content(files, catalog.specs[j].path) == old(Content(files, catalog.specs[j].path))
      {
        var p := catalog.cleanup[i];
        assert catalog.Manages(p);
        catalog.PutElsewhere(files, before, p, if restoring then None else values[p]);
        hide catalog.SameElsewhere, catalog.Manages;
        r := WriteFile(p, if restoring then None else values[p], calm);
        if r.Err? { return; }
      }
      r := Ok(());
    }

    // ------------------------------------------------------------ rollback folders

    method Snapshot(calm: bool) returns (r: Result<Values, Fault>)
      requires catalog.Valid()
      ensures r.Ok? ==> catalog.Read(files, r.value)
      ensures r.Err? ==> r.error in {Crashed, Failed}
      ensures calm ==> r.Ok?
    {
      var _ :- Trouble(calm);
      var values: Values := map[];
      for i := 0 to |catalog.specs|
        invariant forall j :: 0 <= j < i ==> catalog.specs[j].key in values
        invariant forall j :: 0 <= j < i ==> values[catalog.specs[j].key] == Content(files, catalog.specs[j].path)
      {
        values := values[catalog.specs[i].key := Content(files, catalog.specs[i].path)];
      }
      return Ok(values);
    }

    method ReadCleanup(calm: bool) returns (r: Result<Values, Fault>)
      requires catalog.Valid()
      ensures r.Ok? ==> catalog.ReadCleanup(files, r.value)
      ensures r.Err? ==> r.error in {Crashed, Failed}
      ensures calm ==> r.Ok?
    {
      var _ :- Trouble(calm);
      var values: Values := map[];
      for i := 0 to |catalog.cleanup|
        invariant forall j :: 0 <= j < i ==> catalog.cleanup[j] in values
        invariant forall j :: 0 <= j < i ==> values[catalog.cleanup[j]] == Content(files, catalog.cleanup[j])
      {
        values := values[catalog.cleanup[i] := Content(files, catalog.cleanup[i])];
      }
      return Ok(values);
    }

    method PutFolder(name: string, folder: Folder, calm: bool) returns (r: Status)
      modifies this`folders
      ensures folders == old(folders) || folders == old(folders)[name := folder]
      ensures r.Ok? ==> folders == old(folders)[name := folder]
      ensures r.Err? ==> r.error in {Crashed, Failed}
      ensures calm ==> r.Ok?
    {
      var _ :- Trouble(calm);
      folders := folders[name := folder];
      r := Trouble(calm);
    }

    // One saved file; an absent one leaves nothing but its manifest line.
    method SaveBlob(name: string, blob: Blob, data: Option<Bytes>, calm: bool) returns (r: Status)
      requires name in folders
      modifies this`folders
      ensures folders.Keys == old(folders).Keys && OthersKept(name)
      ensures folders[name] == old(folders[name]) || folders[name] == Saved(old(folders[name]), blob, data)
      ensures r.Ok? ==> folders[name] == Saved(old(folders[name]), blob, data)
      ensures r.Err? ==> r.error in {Crashed, Failed}
      ensures calm ==> r.Ok?
    {
      if data.None? { return Ok(()); }
      var f := folders[name];
      r := PutFolder(name, f.(blobs := f.blobs[blob := data.value]), calm);
    }

    // Every folder but this one is as it was.
    twostate predicate OthersKept(name: string)
      reads this
    {
      forall n :: n != name ==>
        (n in folders <==> n in old(folders)) && (n in folders ==> folders[n] == old(folders[n]))
    }

    method SaveFiles(name: string, values: Values, calm: bool) returns (r: Result<seq<Entry>, Fault>)
      requires catalog.Valid() && catalog.Covers(values) && name in folders
      modifies this`folders
      ensures name in folders && OthersKept(name)
      ensures r.Ok? ==> |r.value| == |catalog.specs|
      ensures r.Ok? ==> forall i :: 0 <= i < |catalog.specs| ==>
        r.value[i] == EntryOf(catalog.specs[i].key, values[catalog.specs[i].key])
      ensures r.Ok? ==> forall i :: 0 <= i < |catalog.specs| ==>
        ReadEntry(folders[name], r.value[i], catalog.specs[i].key, FileBlob(i)) == Ok(values[catalog.specs[i].key])
      ensures r.Err? ==> r.error in {Crashed, Failed}
      ensures calm ==> r.Ok?
    {
      var entries: seq<Entry> := [];
      for i := 0 to |catalog.specs|
        invariant name in folders && OthersKept(name) && |entries| == i
        invariant forall j :: 0 <= j < i ==>
          entries[j] == EntryOf(catalog.specs[j].key, values[catalog.specs[j].key])
        invariant forall j :: 0 <= j < i ==>
          ReadEntry(folders[name], entries[j], catalog.specs[j].key, FileBlob(j)) == Ok(values[catalog.specs[j].key])
      {
        var key := catalog.specs[i].key;
        entries := entries + [EntryOf(key, values[key])];
        var _ :- SaveBlob(name, FileBlob(i), values[key], calm);
      }
      return Ok(entries);
    }

    method SaveCleanup(name: string, values: Values, calm: bool) returns (r: Result<seq<Entry>, Fault>)
      requires catalog.Valid() && catalog.CoversCleanup(values) && name in folders
      modifies this`folders
      ensures name in folders && OthersKept(name)
      ensures r.Ok? ==> |r.value| == |catalog.cleanup|
      ensures r.Ok? ==> forall i :: 0 <= i < |catalog.cleanup| ==>
        r.value[i] == EntryOf(catalog.cleanup[i], values[catalog.cleanup[i]])
      ensures r.Ok? ==> forall i :: 0 <= i < |catalog.cleanup| ==>
        ReadEntry(folders[name], r.value[i], catalog.cleanup[i], CleanupBlob(i)) == Ok(values[catalog.cleanup[i]])
      ensures KeepsFiles(old(folders[name]), folders[name])
      ensures r.Err? ==> r.error in {Crashed, Failed}
      ensures calm ==> r.Ok?
    {
      var entries: seq<Entry> := [];
      for i := 0 to |catalog.cleanup|
        invariant name in folders && OthersKept(name) && |entries| == i
        invariant forall j :: 0 <= j < i ==>
          entries[j] == EntryOf(catalog.cleanup[j], values[catalog.cleanup[j]])
        invariant forall j :: 0 <= j < i ==>
          ReadEntry(folders[name], entries[j], catalog.cleanup[j], CleanupBlob(j)) == Ok(values[catalog.cleanup[j]])
        invariant KeepsFiles(old(folders[name]), folders[name])
      {
        var key := catalog.cleanup[i];
        entries := entries + [EntryOf(key, values[key])];
        var _ :- SaveBlob(name, CleanupBlob(i), values[key], calm);
      }
      return Ok(entries);
    }

    // `_write_rollback`: the manifest is written last. The name is fresh.
    method WriteRollback(name: string, values: Values, removed: Values, calm: bool) returns (r: Status)
      requires catalog.Valid() && catalog.Covers(values) && catalog.CoversCleanup(removed) && name !in folders
      modifies this`folders
      ensures OthersKept(name)
      ensures r.Ok? ==> name in folders && catalog.Holds(folders[name], values, removed)
      ensures r.Ok? ==> catalog.Records(folders[name].manifest.value, values, removed)
      ensures r.Err? ==> r.error in {Crashed, Failed}
      ensures calm ==> r.Ok?
    {
      var _ :- PutFolder(name, Folder(map[], None), calm);
      var entries :- SaveFiles(name, values, calm);
      var cleanup :- SaveCleanup(name, removed, calm);
      ghost var kept := folders[name];
      assert forall i :: 0 <= i < |catalog.specs| ==>
          ReadEntry(kept, entries[i], catalog.specs[i].key, FileBlob(i)) == Ok(values[catalog.specs[i].key]);
      assert catalog.Holds(kept.(manifest := Some(Manifest(entries, cleanup))), values, removed);
      r := PutFolder(name, folders[name].(manifest := Some(Manifest(entries, cleanup))), calm);
    }

    // `_load_rollback`: what the folder holds; refused when it is missing or not intact.
    method LoadRollback(name: string, calm: bool) returns (r: Result<(Values, Values), Fault>)
      requires catalog.Valid()
      ensures r.Ok? ==> name in folders && catalog.Holds(folders[name], r.value.0, r.value.1)
      ensures r.Err? ==> r.error in {Crashed, Failed, Invalid}
      ensures r == Err(Invalid) ==> name !in folders || !catalog.Intact(folders[name])
      ensures calm && r.Err? ==> r.error == Invalid
    {
      var _ :- Trouble(calm);
      if name !in folders { return Err(Invalid); }
      var f := folders[name];
      if f.manifest.None? { return Err(Invalid); }
      var manifest := f.manifest.value;
      if |manifest.entries| != |catalog.specs| || |manifest.cleanup| != |catalog.cleanup| { return Err(Invalid); }
      var files: Values := map[];
      for i := 0 to |catalog.specs|
        invariant forall j :: 0 <= j < i ==> catalog.specs[j].key in files
        invariant forall j :: 0 <= j < i ==>
          ReadEntry(f, manifest.entries[j], catalog.specs[j].key, FileBlob(j)) == Ok(files[catalog.specs[j].key])
      {
        var data := ReadEntry(f, manifest.entries[i], catalog.specs[i].key, FileBlob(i));
        if data.Err? { return Err(Invalid); }
        files := files[catalog.specs[i].key := data.value];
      }
      var removed: Values := map[];
      for i := 0 to |catalog.cleanup|
        invariant forall j :: 0 <= j < i ==> catalog.cleanup[j] in removed
        invariant forall j :: 0 <= j < i ==>
          ReadEntry(f, manifest.cleanup[j], catalog.cleanup[j], CleanupBlob(j)) == Ok(removed[catalog.cleanup[j]])
      {
        var data := ReadEntry(f, manifest.cleanup[i], catalog.cleanup[i], CleanupBlob(i));
        if data.Err? { return Err(Invalid); }
        removed := removed[catalog.cleanup[i] := data.value];
      }
      return Ok((files, removed));
    }

    // `_finish_rollback`: a crash may leave any part of the folder behind.
    method FinishRollback(name: string, calm: bool) returns (r: Status)
      modifies this`folders
      ensures OthersKept(name)
      ensures r.Ok? ==> folders == old(folders) - {name}
      ensures r.Err? ==> r.error == Crashed
      ensures calm ==> r.Ok?
    {
      var rest: Folder := *;
      var crashed: bool := *;
      if crashed && !calm {
        folders := folders[name := rest];
        return Err(Crashed);
      }
      folders := folders - {name};
      return Ok(());
    }

    // ------------------------------------------------------------------ operations

    // Its first part: the files, under an unfinished journal.
    method InstallFiles(j: Journal, incoming: Values, removed: Values, calm: bool,
                        ghost before: Tree, ghost values: Values) returns (r: Status)
      requires Backed(j.rollback, before, values, removed) && catalog.Covers(incoming)
      requires journal == Some(j) && j.phase == Prepared && files == before
      modifies this`files, this`journal
      ensures catalog.Mixed(files, before, incoming) && Backed(j.rollback, before, values, removed)
      ensures r.Ok? ==> catalog.Installed(files, before, incoming)
      ensures journal == Some(j) || journal == Some(j.(phase := Applying))
      ensures r.Err? ==> r.error in {Crashed, Failed}
      ensures calm ==> r.Ok?
    {
      r := Persist(j.(phase := Applying), calm);
      if r.Err? { return; }
      r := ApplyValues(incoming, calm, before);
      assert Backed(j.rollback, before, values, removed);
      if r.Err? { return; }
      r := ApplyCleanup(removed, true, calm, before);
    }

    // The guarded part of `restore`.
    method Install(j: Journal, incoming: Values, removed: Values, accepted: bool, calm: bool,
                   ghost before: Tree, ghost values: Values) returns (r: Status)
      requires Backed(j.rollback, before, values, removed) && catalog.Covers(incoming)
      requires journal == Some(j) && j.phase == Prepared && files == before
      modifies this
      ensures catalog.Mixed(files, before, incoming)
      ensures r.Ok? ==> Restored(before, incoming) && journal.value.digest == j.digest
      ensures journal.Some? && journal.value.rollback == j.rollback
      ensures r.Err? ==>
                r.error in {Crashed, Failed} && (Recoverable(before) || (accepted && Restored(before, incoming)))
      ensures r.Ok? ==> accepted
      ensures r == Err(Failed) ==> Backed(j.rollback, before, values, removed)
      ensures OthersKept(j.rollback) && (r.Ok? ==> j.rollback !in folders)
      ensures calm ==> (r.Ok? <==> accepted) && (!accepted ==> r == Err(Failed))
    {
      r := InstallFiles(j, incoming, removed, calm, before, values);
      if r.Err? { return; }
      if !accepted { return Err(Failed); }
      r := Trouble(calm);
      assert Backed(j.rollback, before, values, removed);
      if r.Err? { return; }
      r := Persist(j.(phase := Committed), calm);
      assert Backed(j.rollback, before, values, removed);
      if r.Err? { return; }
      r := FinishRollback(j.rollback, calm);
    }

    // Everything goes back to what the rollback folder holds, and the journal says so.
    method PutBack(j: Journal, values: Values, removed: Values, calm: bool, ghost before: Tree) returns (r: Status)
      requires Backed(j.rollback, before, values, removed)
      requires Active(journal) && journal.value.rollback == j.rollback
      modifies this
      ensures Between(files, old(files), before)
      ensures r.Ok? ==> Undone(before)
      ensures r.Err? ==> r.error in {Crashed, Failed} && (Recoverable(before) || Undone(before))
      ensures r.Err? && !Undone(before) ==> Backed(j.rollback, before, values, removed)
      ensures OthersKept(j.rollback) && (r.Ok? ==> j.rollback !in folders)
      ensures journal.Some? && journal.value.rollback == j.rollback
      ensures journal == old(journal) || journal.value == j.(phase := journal.value.phase)
      ensures calm ==> r.Ok?
    {
      r := ApplyValues(values, calm, before);
      assert Backed(j.rollback, before, values, removed);
      if r.Err? { return; }
      r := ApplyCleanup(removed, false, calm, before);
      assert Backed(j.rollback, before, values, removed);
      if r.Err? { return; }
      catalog.SameTree(files, before, values, removed);
      r := Persist(j.(phase := RolledBack), calm);
      assert Backed(j.rollback, before, values, removed);
      if r.Err? { return; }
      r := FinishRollback(j.rollback, calm);
    }

    // Every managed file is as it was in one of these two.
    ghost predicate Between(now: Tree, was: Tree, before: Tree) {
      && (forall i :: 0 <= i < |catalog.specs| ==>
            Content(now, catalog.specs[i].path)
              in {Content(was, catalog.specs[i].path), Content(before, catalog.specs[i].path)})
      && (forall p :: p in catalog.cleanup ==> Content(now, p) in {Content(was, p), Content(before, p)})
    }

    // The exception handler of `restore`.
    method Undo(j: Journal, values: Values, removed: Values, calm: bool, ghost before: Tree, ghost incoming: Values)
      returns (r: Status)
      requires Backed(j.rollback, before, values, removed) && catalog.Mixed(files, before, incoming)
      requires journal.Some? && journal.value.rollback == j.rollback
      modifies this
      ensures catalog.Mixed(files, before, incoming)
      ensures r.Ok? ==> Undone(before)
      ensures r.Err? ==> r.error in {Crashed, Failed}
      ensures r.Err? ==> Recoverable(before) || Undone(before) || (journal == old(journal) && files == old(files))
      ensures r.Err? && !Undone(before) ==> Backed(j.rollback, before, values, removed)
      ensures OthersKept(j.rollback) && (r.Ok? ==> j.rollback !in folders)
      ensures journal.Some? && journal.value.rollback == j.rollback
      ensures journal == old(journal) || journal.value == j.(phase := journal.value.phase)
      ensures calm ==> r.Ok?
    {
      var back := j.(phase := RollingBack);
      r := Persist(back, calm);
      assert Backed(j.rollback, before, values, removed);
      if r.Err? { return; }
      r := PutBack(back, values, removed, calm, before);
    }

    // `restore` of a decoded archive: all of it, or nothing of it, or an unfinished
    // journal from which `recover` can go back.
    method Restore(bundle: Bytes, expected: Digest, decoded: Result<Values, Fault>, name: string, accepted: bool,
                   calm: bool)
      returns (r: Status)
      requires catalog.Valid() && name !in folders && (decoded.Ok? ==> catalog.Covers(decoded.value))
      modifies this
      ensures Active(old(journal)) || Sha(bundle) != expected || decoded.Err? ==>
                files == old(files) && journal == old(journal) && folders == old(folders)
      ensures Sha(bundle) != expected ==> r == Err(Changed)
      ensures Sha(bundle) == expected && Active(old(journal)) ==> r == Err(Interrupted)
      ensures Sha(bundle) == expected && !Active(old(journal)) && decoded.Err? ==> r == Err(Invalid)
      ensures decoded.Ok? ==> catalog.Mixed(files, old(files), decoded.value)
      ensures r.Ok? ==> accepted && Restored(old(files), decoded.value) && journal.value.digest == expected
      ensures journal != old(journal) ==> journal.Some? && journal.value.rollback == name
      ensures r.Err? ==>
                || (files == old(files) && journal == old(journal))
                || Recoverable(old(files)) || Undone(old(files))
                || (accepted && decoded.Ok? && Restored(old(files), decoded.value))
      ensures calm && !Active(old(journal)) && Sha(bundle) == expected && decoded.Ok? ==>
                (r.Ok? <==> accepted) && (!accepted ==> r == Err(Failed))
      ensures calm && r == Err(Failed) ==> Undone(old(files))
      ensures OthersKept(name)
      ensures r.Ok? || (calm && r == Err(Failed)) ==> name !in folders
    {
      if Sha(bundle) != expected { return Err(Changed); }
      if Active(journal) { return Err(Interrupted); }
      if decoded.Err? { return Err(Invalid); }
      var current :- Snapshot(calm);
      var removed :- ReadCleanup(calm);
      var _ :- WriteRollback(name, current, removed, calm);
      ghost var before := files;
      var j := Journal(Prepared, expected, name);
      assert Backed(name, before, current, removed);
      r := Persist(j, calm);
      assert Backed(name, before, current, removed);
      if r.Err? { return; }
      r := Install(j, decoded.value, removed, accepted, calm, before, current);
      if r == Err(Failed) {
        var undone := Undo(j, current, removed, calm, before, decoded.value);
        if undone.Err? { return undone; }
      }
    }

    // `recover`: the files a rollback folder holds are put back.
    method Recover(calm: bool, ghost before: Tree) returns (r: Status)
      requires catalog.Valid() && (Active(journal) ==> Recoverable(before))
      modifies this
      ensures !Active(old(journal)) ==>
                r.Ok? && files == old(files) && journal == old(journal) && folders == old(folders)
      ensures Active(old(journal)) && r.Ok? ==>
                Undone(before) && folders == old(folders) - {old(journal).value.rollback}
      ensures Active(old(journal)) ==> OthersKept(old(journal).value.rollback)
      ensures Active(old(journal)) ==>
                journal.Some? && journal.value == old(journal).value.(phase := journal.value.phase)
      ensures r.Err? ==> r.error in {Crashed, Failed} && (Recoverable(before) || Undone(before))
      ensures calm ==> r.Ok?
    {
      if !Active(journal) { return Ok(()); }
      var j := journal.value;
      ghost var values, removed :| Backed(j.rollback, before, values, removed);
      var loaded :- LoadRollback(j.rollback, calm);
      catalog.HoldsOne(folders[j.rollback], values, removed, loaded.0, loaded.1);
      assert Backed(j.rollback, before, loaded.0, loaded.1);
      r := PutBack(j, loaded.0, loaded.1, calm, before);
    }

    // A restore cut short anywhere, then recoveries each of which may be cut short too:
    // as soon as no restore is unfinished, the device has all of the backup or is
    // exactly as it was. One recovery that is left alone (`settled`) is enough. The
    // rollback folder is gone too, unless the call that ended the restore was itself
    // cut short while it removed it (`last`): no later recovery looks for it then.
    method RestoreThenRecover(bundle: Bytes, expected: Digest, decoded: Result<Values, Fault>, name: string,
                              accepted: bool, attempts: nat, settled: bool)
      returns (last: Status)
      requires catalog.Valid() && name !in folders && (decoded.Ok? ==> catalog.Covers(decoded.value))
      requires !Active(journal)
      modifies this
      ensures Active(journal) ==> Recoverable(old(files))
      ensures !Active(journal) ==> files == old(files) || (accepted && decoded.Ok? && Restored(old(files), decoded.value))
      ensures !Active(journal) && journal != old(journal) && files == old(files) ==>
                Undone(old(files)) || (accepted && decoded.Ok? && Restored(old(files), decoded.value))
      ensures settled ==> !Active(journal)
      ensures OthersKept(name)
      ensures !Active(journal) && last.Ok? ==> folders == old(folders)
    {
      ghost var before := files;
      last := Restore(bundle, expected, decoded, name, accepted, false);
      for i := 0 to attempts
        invariant OthersKept(name)
        invariant Active(journal) ==> journal.value.rollback == name
        invariant !Active(journal) && last.Ok? ==> name !in folders
        invariant Active(journal) ==> Recoverable(before)
        invariant !Active(journal) ==>
          (files == before && journal == old(journal)) || Undone(before)
          || (accepted && decoded.Ok? && Restored(before, decoded.value))
      {
        var unfinished := Active(journal);
        var r := Recover(false, before);
        if unfinished { last := r; }
      }
      if settled && Active(journal) { last := Recover(true, before); }
      assert name !in folders ==> folders == folders - {name};
    }

    // A rollback folder that was left when its restore ended stays: no recovery removes it.
    method LeftoverStays(attempts: nat)
      requires catalog.Valid() && !Active(journal)
      modifies this
      ensures folders == old(folders) && files == old(files) && journal == old(journal)
    {
      for i := 0 to attempts
        invariant folders == old(folders) && files == old(files) && journal == old(journal)
      {
        var _ := Recover(true, files);
      }
    }
  }
}
