// From the written archive to the restored device: decoding, the guard's normalisation
// and the restore, one after the other.
module BackupCycle {
  import opened Common
  import A = BackupArchive
  import B = BackupRestore
  import G = BackupGuard

  datatype Fault = Refused

  const READY := "etc/node-ready.json"

  // The archive and the device agree on the catalogued keys.
  ghost predicate SameCatalog(specs: seq<A.Spec>, catalog: B.Catalog) {
    |specs| == |catalog.specs| && forall i :: 0 <= i < |specs| ==> specs[i].key == catalog.specs[i].key
  }

  // What the guard looks at; `read` reads the registration record.
  function Seen(values: B.Values, read: B.Bytes -> G.Ready): G.Snapshot
    requires READY in values && values[READY].Some?
  {
    G.Snapshot(map k | k in values && values[k].Some? :: values[k].value, read(values[READY].value))
  }

  // The values that are installed for these archived ones; `write` writes the
  // registration record.
  function Normalised(g: G.Guard, values: B.Values, read: B.Bytes -> G.Ready, write: G.Ready -> B.Bytes)
    : (r: Result<B.Values, Fault>)
    requires G.Complete(g)
    ensures r.Ok? ==> r.value.Keys == values.Keys
  {
    if READY !in values || values[READY].None? then Err(Refused)
    else match G.Validate(g, Seen(values, read))
      case Err(_) => Err(Refused)
      case Ok(n) =>
        Ok(map k | k in values ::
             if k == READY then Some(write(n.ready)) else if k in n.files then Some(n.files[k]) else None)
  }

  // The written values of the catalogued files.
  function Catalogued(specs: seq<A.Spec>, values: B.Values): B.Values {
    map k | k in values && (exists s :: s in specs && s.key == k) :: values[k]
  }

  lemma DecodedIsCatalogued(specs: seq<A.Spec>, values: B.Values, read: B.Values)
    requires A.Covers(specs, values)
    requires read.Keys == (set s | s in specs :: s.key) && forall s :: s in specs ==> read[s.key] == values[s.key]
    ensures read == Catalogued(specs, values)
  {
    forall s | s in specs ensures s.key in values {
      var i :| 0 <= i < |specs| && specs[i] == s;
    }
  }

  lemma NormalisedCovers(specs: seq<A.Spec>, catalog: B.Catalog, read: B.Values, incoming: B.Values)
    requires SameCatalog(specs, catalog) && read.Keys == (set s | s in specs :: s.key) && incoming.Keys == read.Keys
    ensures catalog.Covers(incoming)
  {
    forall i | 0 <= i < |catalog.specs| ensures catalog.specs[i].key in incoming {
      assert specs[i] in specs;
    }
  }

  // What decoding makes of an archive under the written manifest.
  lemma ReadIsWritten(a: A.Archive, specs: seq<A.Spec>, values: B.Values, size: nat, read: B.Values)
    requires A.Catalog(specs) && A.Covers(specs, values)
    requires A.Decoded(a, specs, read) && A.SameManifest(a, specs, values, size)
    ensures read == Catalogued(specs, values)
  {
    A.TamperedIsRefused(a, specs, values, size, read);
    DecodedIsCatalogued(specs, values, read);
  }

  // The decoded and normalised content of a bundle, as `restore` takes it.
  method Incoming(specs: seq<A.Spec>, a: A.Archive, g: G.Guard, read: B.Bytes -> G.Ready,
                  write: G.Ready -> B.Bytes, ghost values: B.Values, ghost size: nat)
    returns (r: Result<B.Values, B.Fault>)
    requires A.Catalog(specs) && A.Covers(specs, values) && G.Complete(g)
    ensures r.Ok? ==> r.value.Keys == (set s | s in specs :: s.key)
    ensures r.Ok? && A.SameManifest(a, specs, values, size) ==>
              Normalised(g, Catalogued(specs, values), read, write) == Ok(r.value)
    ensures a == A.Write(specs, values, size) ==>
              (r.Ok? <==> A.Fits(specs, values, size) && Normalised(g, Catalogued(specs, values), read, write).Ok?)
  {
    hide A.Readable, A.Decoded, A.Write, A.Fits, A.Catalog, A.ManifestOf, Normalised;
    A.ArchiveReadable(specs, values, size);
    A.WrittenManifest(specs, values, size);
    var decoded := A.Decode(a, specs);
    if decoded.Err? { return Err(B.Invalid); }
    assert A.Readable(a, specs) && decoded.value.Keys == (set s | s in specs :: s.key) by {
      DecodedFacts(a, specs, decoded.value);
    }
    if A.SameManifest(a, specs, values, size) { ReadIsWritten(a, specs, values, size, decoded.value); }
    var incoming := Normalised(g, decoded.value, read, write);
    if incoming.Err? { return Err(B.Invalid); }
    return Ok(incoming.value);
  }

  lemma DecodedFacts(a: A.Archive, specs: seq<A.Spec>, values: B.Values)
    requires A.Decoded(a, specs, values)
    ensures A.Readable(a, specs) && values.Keys == (set s | s in specs :: s.key)
  {
  }

  // Restoring a bundle whose archive carries the written manifest installs exactly the
  // normalised written values; left alone, it succeeds for what was written, where the
  // guard accepts it.
  method RestoreBundle(device: B.Device, bundle: B.Bytes, expected: B.Digest, unpack: B.Bytes -> A.Archive,
                       specs: seq<A.Spec>, g: G.Guard, read: B.Bytes -> G.Ready, write: G.Ready -> B.Bytes,
                       name: string, accepted: bool, calm: bool, ghost values: B.Values, ghost size: nat)
    returns (r: B.Status)
    requires device.catalog.Valid() && name !in device.folders && SameCatalog(specs, device.catalog)
    requires A.Catalog(specs) && A.Covers(specs, values) && G.Complete(g)
    modifies device
    ensures r.Ok? && A.SameManifest(unpack(bundle), specs, values, size) ==>
      var incoming := Normalised(g, Catalogued(specs, values), read, write);
      incoming.Ok? && device.catalog.Covers(incoming.value) && device.Restored(old(device.files), incoming.value)
    ensures calm && unpack(bundle) == A.Write(specs, values, size) && B.Sha(bundle) == expected ==>
      (r.Ok? <==>
        && !B.Active(old(device.journal)) && accepted && A.Fits(specs, values, size)
        && Normalised(g, Catalogued(specs, values), read, write).Ok?)
  {
    hide A.Catalog, A.Covers, A.Write, A.Fits, Normalised;
    var decoded := Incoming(specs, unpack(bundle), g, read, write, values, size);
    if decoded.Ok? { NormalisedCovers(specs, device.catalog, decoded.value, decoded.value); }
    r := device.Restore(bundle, expected, decoded, name, accepted, calm);
  }
}
