# JustVerify: protocols and codecs, modelled and proved

This project models the parts of JustVerify whose failure would cost a user data or
identity, and proves what they promise. Run `dafny verify dfyconfig.toml` to check it.

**Changing the Core version** (`VersionModel`, `VersionProtocol`). A journalled daemon,
a root helper with its own durable guard, a startup gate and a deletion worker share a
device. The model is the device between any two durable steps: each write, each unlink,
each start may be the last one before a crash, and starts, deaths and chain writes
happen at any time. `Sound` is what holds at every such moment. `Appliance` follows the
daemon statement by statement; every method keeps `Sound` on every return, including a
return in the middle, and with `calm` (nothing crashes any more) says where it ends.

**Emptying the chain folder** (`ChainReset`, `ChainNames`). The worker over a directory
tree, as a map from paths to entries, and the names it may delete, written out.

**Policy** (`PolicyModel`, `PolicyRoundTrip`, `PolicySaved`, `PolicyReaders`,
`PolicyEditor`, `PolicyText`, `PolicyTransaction`, `PolicyAcceptance`,
`PolicyListeners`, `PolicyStrict`, `Fees`). The validator, the printer,
the strict parser, the text editor's second form, the two Python readers, the exact fee
arithmetic in Rust and on the page, and the two-phase apply and recover. Specification
functions say what is accepted, printed and read; the loops of the source are methods
proved equal to them. `PolicyAcceptance`, `PolicyListeners` and `PolicyStrict` say the
same without them: which inputs are accepted, which addresses a policy listens on, and
what the three readers take from any text.

**Electrum replies** (`FeatureModel`, `FeatureReplies`, `FeatureSplits`). A whole-stream
definition of what a client must receive, a byte-by-byte machine that refines it, and the
chunked rewriter with its token scanner, carry-over and bounded buffer, which refines the
machine.

**Backups** (`BackupRestore`, `BackupArchive`, `ArchiveMeaning`, `BackupGuard`,
`BackupCycle`). Restore and recovery over the device's files, the archive codec and what
it accepts, the normalisation of archived configuration, and the three one after the
other.

**Operation lock** (`OperationLock`). The policy, version and backup services as a step
system in which any of them may die between any two steps.

**Storage inventory and indexer progress** (`DiskInventory`, `Compaction`,
`CompactionMeaning`).

`Common`, `Strings` and `Decimals` hold the results, string operations and decimal
numbers the others share.

## What turned out not to hold everywhere

- A guard file left over from a committed reset (power lost between the commit and the
  release, src/versions.rs:514-519) makes the next reset, applied before a recovery, end
  unfinished for good: the helper refuses to replace the guard
  (scripts/profile_helper.py:136) and to release it (scripts/profile_helper.py:157-159).
  `LeftoverGuardBlocks` is the concrete device; `Apply` and `Recover` converge if and
  only if there is no such guard, and a transition that began without one never meets
  one (`ApplyThenRecover`). Safety does not depend on it.
- The page shows an empty text for a fee default with a bare decimal point, which the
  service accepts. `PageAgrees` says exactly when the two agree.
- A chunk of the Electrum stream that ends in a backslash outside a string is scanned
  differently from the unsplit stream, exactly if the next byte is one the scanner looks
  for (`BoundaryMatters`), and then a client can see it (`HarmShows`). JSON has no such
  backslash; `UnquotedBackslashIsLost` is the example.
- The backup service recovers an unfinished restore when it is started again, without the
  operation lock and without the barrier check of a request
  (scripts/backup_service.py:336-350). A policy change that took the lock of the crashed
  restore may be unfinished at that moment: `RestartDisturbs` is the run, and
  `RestartUndisturbed` says exactly when it is not.
- A restore that is cut off while it writes its rollback folder, before the journal names
  it, or while it removes it, after the journal says it ended, leaves what is in it, with
  the old private keys, for good: recovery looks at the journal first
  (scripts/backup_bundle.py:718-719). `LeftoverStays` says that no recovery removes it,
  `Restore` and `RestoreThenRecover` that a restore or recovery which reports success,
  and a failed restore that undid itself uninterrupted, leave none.

## How the world is modelled

- A durable write is one step. It may fail or be the last thing that happens, before or
  after it took effect.
- The system services, RPC, the chain worker and health checks appear as results that
  may be success or failure at any time; a failed worker may have unlinked any part.
- SHA-256 is an injective function: a digest stands for the content it was made of, or
  is the constructor `Sha`. Encryption and JSON syntax are the identity on what they
  carry. The rewrite of one Electrum record is an arbitrary function of bytes.
- Ordered maps are walked by a list of their keys in any order, which includes the
  source's.
- A loaded policy catalog is a table of options; `Reviewed` states what the shipped
  catalogs have in common (printable keys, each special control under its own key, the
  option Core 30 ignores not offered), and `Typed` the types of the options that are
  compared with each other; `ExampleIsReviewed` and `ExampleIsAccepted` show a table and
  an input that meet `Reviewed`.

## Model

| member | source | states |
|---|---|---|
| `VersionModel.PointOfNoReturn` | src/versions.rs:469-491 | At every moment, any unlink implies an irreversible guard, and an irreversible guard that the journal says deletion started, unless it is left over from an earlier committed reset; a ready target implies an irreversible guard; every unlink was made in the target's own folder under such records. |
| `VersionModel.GateAdmitsOnlyTarget` | scripts/node_ready.py:6-18 | Once anything was unlinked, the startup gate passes only with the target selected and registered, and only after the whole allowlist was seen empty, with nothing unlinked since. |
| `VersionModel.FoldersApart` | src/storage.rs:79-86 | The folder of a new instance is that of no other version, network or mode. |
| `VersionModel.HelperInhibits` | scripts/profile_helper.py:122-149 | Whatever the daemon wrote, the root helper sets the guard if and only if the journal is a change of version in one folder, from or to the registered instance, and no other transition's guard is there; it marks the target ready only under an irreversible guard with the chain gone. |
| `VersionModel.HelperReleases` | scripts/profile_helper.py:151-160 | It releases the guard if and only if the transition is committed, or has ended or is recovering before deletion, and an irreversible one only with the finished target selected. |
| `VersionModel.GateOpens` | scripts/node_ready.py:5-49 | The gate is open if and only if the selection is registered, configured and marked, no reset is in a closed phase, and a guard, if any, is of the finished target that is selected. |
| `VersionModel.OnlyTargetRuns` | scripts/node_ready.py:16-18 | Once anything was unlinked, whatever runs is the target. |
| `VersionModel.HistoryOrdered` | src/versions.rs:478-529 | Of any two events of a transition: between an unlink and a later start lies an empty allowlist, the start is the target's, and the first one finds an empty chain; after any start, and after anything the target wrote, nothing is unlinked. |
| `VersionModel.FinishedIsConfigured` | src/versions.rs:513-561 | Whenever a transition has ended, or its stop failed, with a profile selected, services, registration and marker are that profile's; and the startup gate is open, after an end whatever guard is left and after a failed stop without one. |
| `VersionModel.RecoveryNeverBlocksItself` | src/versions.rs:572-608 | Whatever the protocol has written at a crash point passes the reader's journal check, names the previous or the target selection as active, and fits the phase table for the instance marker. |
| `VersionModel.EnvironmentKeepsSound` | scripts/node_ready.py:5-49 | A start attempt, a death of the running Core or a write to its chain keeps the invariant; starts are possible only through the gate. |
| `VersionModel.DriveKeepsSound` | scripts/node_ready.py:5-49 | So does any sequence of them. |
| `VersionModel.DriveDrifts` | scripts/node_ready.py:5-49 | Between two steps of the daemon the environment changes nothing but chain entries and what runs; with the gate shut and nothing running, nothing at all. |
| `VersionModel.TurningExtends` | scripts/profile_helper.py:139-148 | The record that the allowlist was seen empty, with only the target active since, survives every later event but an unlink. |
| `VersionProtocol.ReviewIsWellFormed` | src/versions.rs:231-287 | A review proposes the version, network and mode asked for, and deletion exactly for a change of version, in the same data folder; otherwise it targets the instance saved for the network and mode, or else a new one; the journal that follows from it has the reviewed shape. |
| `VersionProtocol.ReviewRefuses` | src/versions.rs:231-287 | What a review refuses, and nothing else: anything while a transition is unfinished, the active selection itself, a change of version together with one of network or mode, a network and mode saved under another version, a folder that holds another instance. |
| `VersionProtocol.InhibitKeepsSound` | scripts/profile_helper.py:122-149 | Setting or updating the guard keeps the invariant; marking the target ready is the moment the allowlist is seen empty. |
| `VersionProtocol.InhibitAccepts` | scripts/profile_helper.py:122-149 | In every phase in which recovery asks for the guard, the helper accepts, unless a guard of an earlier transition was left behind. |
| `VersionProtocol.ReleaseKeepsSound` | scripts/profile_helper.py:151-160 | Whenever the helper agrees to release the guard, the device is as safe without it. |
| `VersionProtocol.RegistrationKeepsSound` | scripts/profile_helper.py:205-222 | Rewriting the configuration and the registration in a starting phase keeps the invariant, at each of their writes. |
| `VersionProtocol.UnlinkKeepsSound` | scripts/chain_reset.py:141-185 | Each single unlink of an allowlisted entry keeps the invariant. |
| `VersionProtocol.LeftoverGuardBlocks` | scripts/profile_helper.py:136-159 | A concrete device with a guard left over from a committed reset: the next reset is reviewed and journalled, and then the guard is refused both ways and nothing may start. |
| `VersionProtocol.Appliance.StopFailure` | src/versions.rs:455-465 | A service that does not stop ends the transition before anything changed: the failure is journalled and the guard that a reset had set is released. |
| `VersionProtocol.Appliance.StartAndCheck` | src/version_service.rs:71-120 | Activation and a start through the gate; with a succeeding runtime it succeeds exactly when the gate would pass for the selection once registered. |
| `VersionProtocol.Appliance.Activate` | scripts/profile_helper.py:205-226 | The configuration and registration end at the active selection; a failure leaves every other durable record alone. |
| `VersionProtocol.Appliance.Reset` | scripts/chain_reset.py:205-228 | The worker unlinks only entries of the target's folder, leaves all others, and on success leaves none of them; it may stop anywhere. |
| `VersionProtocol.Appliance.EmptyChain` | src/versions.rs:469-494 | The point of no return is durable before the first unlink; on success the root helper has seen the scope empty. |
| `VersionProtocol.Appliance.SelectTarget` | src/versions.rs:495-512 | The folder is bound to the target, the target selected and remembered, in that order, with the guard unchanged. |
| `VersionProtocol.Appliance.StartTarget` | src/versions.rs:513-529 | With a succeeding runtime: committed, target active, guard gone; or, under a leftover guard, a failed rollback. |
| `VersionProtocol.Appliance.Commit` | src/versions.rs:513-520 | The commit is durable before the guard is released. |
| `VersionProtocol.Appliance.HoldTarget` | src/versions.rs:521-526 | A target that cannot start after deletion is held for a retry; the old one is never offered. |
| `VersionProtocol.Appliance.Finish` | src/versions.rs:469-530 | With a succeeding runtime and worker: committed, deletion recorded exactly for a reset, target active and guard gone. |
| `VersionProtocol.Appliance.SelectPrevious` | src/versions.rs:538-543 | The previous selection is active again and the guard of this reset gone; refused exactly for a leftover guard. |
| `VersionProtocol.Appliance.ForgetSelection` | src/versions.rs:552-560 | Without a previous profile nothing stays selected, and the transition is rolled back. |
| `VersionProtocol.Appliance.Restore` | src/versions.rs:531-561 | Only before the point of no return; with a succeeding runtime it ends rolled back on the previous selection exactly when no other guard is left over. |
| `VersionProtocol.Appliance.Resume` | src/versions.rs:580-630 | Recovery past the point of no return ends committed on the target. |
| `VersionProtocol.Appliance.Recover` | src/versions.rs:562-634 | None of its own consistency checks refuses; with a succeeding runtime and worker it ends the transition exactly when no leftover guard is in the way: committed on the target if deletion had started, rolled back on the previous selection if not, the guard gone in both. |
| `VersionProtocol.Appliance.Apply` | src/versions.rs:387-468 | Refused without a change while a transition is unfinished; otherwise, with a succeeding runtime, it commits exactly when no guard file existed, and with one it ends unfinished. After a failed stop it ends with the previous selection active, the guard of a reset released, and the startup gate open where a previous profile existed. |
| `VersionProtocol.Appliance.ApplyThenRecover` | src/versions.rs:387-634 | One transition begun without a guard file, the first apply included: after an apply cut off anywhere and any number of recoveries cut off anywhere, one recovery with a succeeding runtime and worker ends the transition, without a guard file: committed on the target if deletion had been persisted, otherwise rolled back on the previous selection, or left as it had already finished. |
| `VersionProtocol.Appliance.Run` | src/versions.rs:387-634 | Over any run of reviews, applies, recoveries and the environment, each operation cut off anywhere: the invariant holds, and after an unlink the previous binary neither runs, nor was started, nor could be. |
| `FeatureModel.MachineRefinesReference` | web/electrum_features.py:58-99 | The byte-by-byte machine sends, and at the end holds, exactly the whole-stream reference: each top-level or batch-member object within the limit replaced by its rewrite, every other byte unchanged. |
| `FeatureModel.SplitDoesNotMatter` | web/electrum_features.py:58-93 | Fed in chunks whose ends are all harmless, the machine is where the unsplit stream leads. |
| `FeatureModel.BoundaryMatters` | web/electrum_features.py:61-68 | A chunk end leads elsewhere than the unsplit stream exactly when an escape outside a string is pending and the next byte is a backslash, a quote, an opening bracket, or a closing one that closes something. |
| `FeatureSplits.HarmShows` | web/electrum_features.py:61-93 | At every chunk end that is not harmless some continuation, with some rewrite, gives the client something else than the reference. |
| `FeatureModel.JsonSplitsCleanly` | web/electrum_features.py:12-12 | A stream whose backslashes are all inside strings (sections 2 and 7 of RFC 8259) has only such splits. |
| `FeatureModel.UnquotedBackslashIsLost` | web/electrum_features.py:61-68 | A concrete stream outside JSON, split after an unquoted backslash, for which the split does matter. |
| `FeatureModel.StepKeepsCoherent` | web/electrum_features.py:74-91 | An open record begins with the brace at its depth, so no record opens inside another. |
| `FeatureReplies.Rewriter.Append` | web/electrum_features.py:48-56 | Appending settles the bytes between two tokens: what was written is all the machine has sent, and the buffer never exceeds the limit. |
| `FeatureReplies.Rewriter.OpenBracket` | web/electrum_features.py:74-81 | An opening bracket takes the buffer where the machine goes, opening a record only at top level or in a batch. |
| `FeatureReplies.Rewriter.CloseBracket` | web/electrum_features.py:82-91 | A closing bracket takes the buffer where the machine goes, replacing a complete buffered record. |
| `FeatureReplies.Rewriter.Token` | web/electrum_features.py:63-91 | One token, of one or two bytes, is as many steps of the machine. |
| `FeatureReplies.Rewriter.Feed` | web/electrum_features.py:58-93 | Feeding a chunk advances the machine by that chunk and returns exactly what it newly sent; the buffer stays within 65536 bytes. |
| `FeatureReplies.Rewriter.Finish` | web/electrum_features.py:95-99 | The end of the stream returns what the machine still holds. |
| `FeatureReplies.Relay` | web/electrum_tls.py:25-33 | For every stream of JSON and every split into non-empty chunks, and for every other clean split, the client receives the whole-stream reference. |
| `Fees.FeeToCoreExact` | src/lib.rs:70-92 | Accepted exactly for numbers of at most three decimals whose value in thousandths fits u64; the result is that value in Core's notation. |
| `Fees.NativeFeeToInputExact` | src/policy.rs:1313-1329 | Accepted exactly for numbers of at most eight decimals whose value fits u64; the result is that value in sat/vB without trailing zeros. |
| `Fees.SavedFeeIsStable` | src/lib.rs:70-92 | What the first conversion produced is accepted by the second without overflow, and converting again gives the same stored text. |
| `Fees.ConversionsInvert` | src/policy.rs:1313-1329 | On canonical texts each conversion undoes the other, in both directions. |
| `Fees.PageAgrees` | web/static/settings.js:17-17 | The page's BigInt conversion equals the service's wherever the latter succeeds, if and only if the default does not end in a bare point. |
| `Fees.PageDiffersOnBarePoint` | web/static/settings.js:17-17 | A concrete default ("0.") on which they differ. |
| `PolicyRoundTrip.ParseUndoesRender` | src/policy.rs:768-899 | For every network and every storable value map, in any order of the options, parsing the rendered text returns exactly the values, with the derived onion, I2P, asmap and bind lines and the repeated options. |
| `PolicyRoundTrip.LinesParsed` | src/policy.rs:768-827 | Reading all rendered lines leaves the parser with the values, the derived settings, and the listener section exactly when an incoming selection is set. |
| `PolicyRoundTrip.BlocksParsed` | src/policy.rs:858-876 | The option lines, in any order without repetition, add exactly the options they were rendered from. |
| `PolicyRoundTrip.DerivedTakesBack` | src/policy.rs:828-857 | The final checks accept the derived settings of a rendered policy and take away exactly them. |
| `PolicyRoundTrip.RenderIsPlain` | src/policy.rs:858-899 | A rendered policy is printable ASCII, so every reader sees the printed lines. |
| `PolicySaved.CanonicalStable` | src/policy.rs:196-369 | Every accepted value is stored in a form that, shown in the form's units and validated again, is stored the same. |
| `PolicySaved.SortedSelection` | src/policy.rs:225-247 | A canonically ordered selection holds the same names, is a selection still, and is its own canonical form. |
| `PolicySaved.ValidatedIsStable` | src/policy.rs:196-448 | Whatever validation accepts can be printed, satisfies the combined rules, and is stable value by value. |
| `PolicySaved.StandsForValidates` | src/policy.rs:196-448 | Form values that each stand for a stored value validate to exactly the stored map, with the outgoing defaults completed. |
| `PolicySaved.ShownValidates` | src/policy.rs:1152-1180 | The stored map, shown, validates to itself, and contains no option the release ignores. |
| `PolicySaved.SavedIsFixed` | src/policy.rs:1152-1270 | Rendering an accepted input, reading it back and validating again gives the same Core values, whatever the order of the lines. |
| `PolicyReaders.OneWriterThreeReaders` | scripts/core_service.py:29-55 | For every accepted input, the strict parser returns the values and both Python readers accept the rendered file and return what the values say. |
| `PolicyReaders.LauncherAgrees` | scripts/core_service.py:29-55 | The launcher's reader does not raise on a rendered policy and returns its incoming set, outgoing set and proxy flag, with the same implicit defaults. |
| `PolicyReaders.I2pReaderAgrees` | scripts/i2p_service.py:24-35 | The I2P condition does not raise on a rendered policy and equals whether the policy enables I2P. |
| `PolicyReaders.RenderTagged` | src/policy.rs:858-899 | A reader looking for lines of one option finds exactly the values of that option, line by line. |
| `PolicyAcceptance.AcceptedExactly` | src/policy.rs:196-448 | An input is accepted if and only if every value fits its option and the values fit together, both written out in numbers and names: peer block filters only with their index; private broadcast never on 31.0 or regtest and with onion among chosen outgoing networks; the block weight at least the reserved weight; the mempool at least forty thousand bytes for each unit of the topology limit; I2P only where supported, and on release 22 not incoming alone. |
| `PolicyAcceptance.FitsExactly` | src/policy.rs:196-369 | One value is taken if and only if it fits: integers within the catalog range, the limit of the option and what 64 bits hold after Core's multiplication, the cache within three quarters of the memory; selections without repetition; fees within u64; the version field only on regtest; standardness never off on mainnet. |
| `PolicyAcceptance.StoredExactly` | src/policy.rs:222-369 | What is stored for a value is the same number, or the same names in order, in Core's units. |
| `PolicyAcceptance.AcceptedIsStored` | src/policy.rs:370-377 | The stored map answers for every option of the input, and adds the outgoing defaults exactly for incoming I2P without outgoing networks. |
| `PolicyAcceptance.StoredCombines` | src/policy.rs:370-448 | The stored map itself fits together. |
| `PolicyListeners.ValidatedListeners` | src/policy.rs:629-663 | From the input to the printed file: without Clearnet every bind line starts with the loopback address; with it exactly the two wildcard addresses are on the network's port; the onion listener is on the next port exactly with Tor; the ports of the five networks are literals. |
| `PolicyListeners.RenderedListeners` | src/policy.rs:629-663 | The same for every storable policy, of the lines of its printed text. |
| `PolicyListeners.PrintedExactly` | src/policy.rs:629-650 | A policy is printed if and only if it selects nothing incoming, or the network is one of the five and the selection is `none` or names Clearnet, Tor and I2P at most once each. |
| `PolicyListeners.RenderedOnion` | src/policy.rs:876-884 | The printed text turns Tor outgoing off if and only if the policy chooses outgoing networks without it. |
| `PolicyListeners.NoAsmapPrinted` | src/policy.rs:866-867 | The peer map is turned off in the printed options if and only if it is stored as zero. |
| `PolicyListeners.ParsedListeners` | src/policy.rs:824-830 | Any text the strict parser accepts has exactly the bind lines that its own selection means. |
| `PolicyStrict.ParsedOptions` | src/policy.rs:768-827 | From any accepted text, an option is what its one line says, or its several lines joined, and absent without a line. |
| `PolicyStrict.ParsedI2p` | src/policy.rs:840-857 | Any accepted text has the two router lines exactly as its own selections imply. |
| `PolicyStrict.ParsedReset` | src/policy.rs:808-830 | It takes back the base listeners exactly once with a selection of its own, and never without one. |
| `PolicyStrict.ParsedOnion` | src/policy.rs:831-839 | It turns Tor outgoing off at most once, and only where its own outgoing networks leave it out. |
| `PolicyStrict.ParsedMap` | src/policy.rs:795-827 | It sets the peer map or turns it off, once in all, or leaves it alone. |
| `PolicyStrict.ParsedSections` | src/policy.rs:768-800 | Every line of it is empty, a comment, a key with a value or the one header of the network's section; listener lines stand below the header, all other keys above. |
| `PolicyStrict.LauncherAccepts` | scripts/core_service.py:29-55 | The launcher accepts a text if and only if it states at most one valid incoming selection, announces no address, and names each outgoing network and the proxy at most once, from the known ones. |
| `PolicyStrict.LauncherReads` | scripts/core_service.py:29-55 | What it then reads is what the lines say, with the stated defaults where they say nothing. |
| `PolicyStrict.I2pReads` | scripts/i2p_service.py:24-35 | The I2P condition refuses exactly the texts whose router lines are not the ones their selections imply. |
| `PolicyStrict.EditedMeans` | src/policy.rs:1214-1265 | An accepted edited text fits the limit, has no control characters, and each line is empty or sets a known option without a control of its own; those with one stay as saved, every other is what the text gives it, once or joined. |
| `PolicyEditor.UneditedTextIsAccepted` | src/policy.rs:1186-1270 | With a catalog of at most 60 options, as all shipped ones are, the editor's text for any readable managed file, fed back unchanged, is accepted and validates to the current effective values. |
| `PolicyEditor.UneditedTextFits` | src/policy.rs:1186-1213 | Such a text never exceeds the editor's limit, whatever was saved. |
| `PolicyEditor.UneditedTextKeepsPolicy` | src/policy.rs:1186-1270 | Whatever the catalog, the text is accepted exactly when it fits 8192 bytes, and then validates to the current effective values. |
| `PolicyEditor.BlocksEdited` | src/policy.rs:1192-1207 | The lines shown for the unprotected options are read as exactly those options in the form's units. |
| `PolicyEditor.EditedStandsFor` | src/policy.rs:1208-1265 | The retained protected options and the read ones together stand for the stored values. |
| `PolicyText.Render` | src/policy.rs:858-899 | The printing loop writes exactly the specified lines, or refuses when the listener is not known; `PolicyListeners` says which addresses these lines open. |
| `PolicyText.ParseConfig` | src/policy.rs:768-857 | The parsing loop accepts exactly what the specification accepts, with the same values; `PolicyStrict` says what it takes from a text. |
| `PolicyText.ValidateValues` | src/policy.rs:196-448 | The validating loop accepts exactly what the specification accepts, with the same values; `PolicyAcceptance` says which inputs these are. |
| `PolicyText.ReadConfigValues` | src/policy.rs:1208-1265 | The editor's reading loop equals its specification, whose results `EditedMeans` describes. |
| `PolicyText.ReadLauncherSelection` | scripts/core_service.py:29-55 | The launcher's line loop equals its specification, described by `LauncherAccepts` and `LauncherReads`. |
| `PolicyTransaction.PlanReadsBack` | src/policy.rs:575-586 | What an accepted plan renders reads back as the plan's values. |
| `PolicyTransaction.RefusesTheRest` | src/policy.rs:546-588 | The refusals are exactly the complement of these conditions. |
| `PolicyTransaction.Managed.Persist` | src/policy.rs:596-599 | A journal write, cut off anywhere, leaves the file and the journal in agreement. |
| `PolicyTransaction.Managed.RollBack` | src/policy.rs:603-613 | Rolling back ends with the file as it was before, checked or recorded as failed. |
| `PolicyTransaction.Managed.Transact` | src/policy.rs:586-615 | At every crash point the file is the journal's before or after; committed means after, checked running; rolled back or failed means before. |
| `PolicyTransaction.Managed.Apply` | src/policy.rs:546-615 | Anything changes only if the receipt is for this plan and program, the plan for this profile, the file still the one reviewed, the request still what it shows, and the last transaction ended; and then it is not refused. Otherwise refused without a trace; a changed file reads back as the reviewed values. |
| `PolicyTransaction.Managed.Recover` | src/policy.rs:1271-1311 | From any unfinished phase, itself interruptible, it ends with the file as it was before; a file that is neither of the journal's texts is left alone, and no file its own writes produced is one. |
| `PolicyTransaction.Managed.Run` | src/policy.rs:546-615 | Over any run of applies and recoveries the journal and the file agree, and every text the file ever holds was there at the start or is the printed form of a reviewed, validated plan. |
| `OperationLock.StepsKeepSound` | src/version_service.rs:122-142 | Under every interleaving of the three services, with a crash of any of them between any two steps and the recovery of the backup service when it starts again, a service past the lock holds it, the two profiles of an unfinished version change have no unfinished policy change, and each task began with the journals as it needs them. |
| `OperationLock.TransactionsNeverOverlap` | scripts/backup_service.py:186-194 | The selected profile's policy journal and the version journal are never both unfinished; a requested backup or restore begins only when both are terminal, and at every step of its work they still are, for the configured and for the selected profile; the policy service works only on the configured profile and beside no version change; no two services work at once. |
| `OperationLock.RestartUndisturbed` | scripts/backup_service.py:336-350 | The recovery of an unfinished restore when the backup service is started again takes no lock and checks nothing: it finds both journals terminal exactly when the barrier check of a request would pass, and surely if no other service passed its checks since the crashed restore did. |
| `OperationLock.RestartDisturbs` | scripts/backup_service.py:336-350 | A concrete run in which it does not: a restore dies in its health check, a policy change takes the freed lock, and the recovery starts while that change is unfinished. |
| `OperationLock.RecoveryIsAlone` | scripts/backup_service.py:336-350 | While it recovers, no journal and no profile changes. |
| `OperationLock.CheckKeepsApart` | src/policy_service.rs:177-205 | What a service checks under the lock is enough for what it then writes. |
| `OperationLock.VersionWriteKeepsApart` | src/versions.rs:389-427 | Journalling a version change keeps it apart from policy changes, because both profiles were checked under the lock. |
| `OperationLock.PolicyWriteKeepsApart` | src/policy_service.rs:177-205 | A policy service only writes its journal while no version change is unfinished. |
| `BackupRestore.Catalog.SameTree` | scripts/backup_bundle.py:693-700 | Files that read like a snapshot under the catalog and are unchanged elsewhere are the files the snapshot was taken of. |
| `BackupRestore.Catalog.HoldsOne` | scripts/backup_bundle.py:614-645 | A rollback folder holds one set of contents. |
| `BackupRestore.Catalog.DamageIsRefused` | scripts/backup_bundle.py:614-645 | Under the written manifest a rollback folder is loaded if and only if every saved file is there as it was written, and then it gives back what was written. |
| `BackupRestore.Catalog.IntactExactly` | scripts/backup_bundle.py:614-645 | A folder is loaded if and only if its manifest names the catalog line by line and every file listed as present is beside it with the listed hash. |
| `BackupRestore.Device.FinishRollback` | scripts/backup_bundle.py:656-662 | The rollback folder is removed and no other one. |
| `BackupRestore.Device.LeftoverStays` | scripts/backup_bundle.py:711-720 | A rollback folder that is left once no restore is unfinished is removed by no recovery. |
| `BackupRestore.Device.ApplyValues` | scripts/backup_bundle.py:606-612 | Each catalogued file ends as given, absent ones removed; at every point each is the old or the given one, whole, and nothing else changes. |
| `BackupRestore.Device.ApplyCleanup` | scripts/backup_bundle.py:647-654 | The enrollment files end removed, or as they were; nothing else changes. |
| `BackupRestore.Device.WriteRollback` | scripts/backup_bundle.py:570-589 | The folder holds the snapshot once it is complete, and no other folder changes. |
| `BackupRestore.Device.LoadRollback` | scripts/backup_bundle.py:614-645 | What is loaded is what the folder holds; an error of its own is raised only for a folder that is missing or not intact. |
| `BackupRestore.Device.Install` | scripts/backup_bundle.py:682-692 | The guarded part ends committed with everything installed, or leaves a state that can be undone; no file is ever torn. |
| `BackupRestore.Device.Undo` | scripts/backup_bundle.py:693-701 | The exception handler ends rolled back with every file as before, or leaves a state that recovery can undo. |
| `BackupRestore.Device.Restore` | scripts/backup_bundle.py:664-709 | A changed bundle, an unfinished restore or a refused archive changes nothing; otherwise all of it is installed, none of it is, or an unfinished journal remains from which recovery goes back; left alone, it succeeds exactly when the installed state is accepted, and undoes itself if not; either way the rollback folder is removed, and no other folder is touched. |
| `BackupRestore.Device.Recover` | scripts/backup_bundle.py:711-728 | From any unfinished journal, itself interruptible, every file is put back; and the rollback folder removed; otherwise nothing changes; left alone, it succeeds. |
| `BackupRestore.Device.RestoreThenRecover` | scripts/backup_bundle.py:664-728 | After a restore cut off anywhere and any number of recoveries cut off anywhere: once no journal is unfinished, the device has all of the backup or is exactly as it was; until then it can be recovered, and one recovery left alone is enough. All folders are as they were before, once the call that ended the restore reported success. |
| `BackupArchive.Decode` | scripts/backup_bundle.py:487-538 | The decoding loop returns the values an archive carries, or refuses exactly the unreadable ones. |
| `BackupArchive.ArchiveReadable` | scripts/backup_bundle.py:374-538 | What was written is readable exactly when the required files are present and nothing exceeds the size limit. |
| `BackupArchive.ArchiveRoundTrip` | scripts/backup_bundle.py:374-538 | What is read is what was written, absent files included. |
| `BackupArchive.TamperedIsRefused` | scripts/backup_bundle.py:487-538 | Under the written manifest an archive is accepted only as a reordering of the written members: nothing missing, extra, duplicated or altered; and it reads the same. |
| `BackupArchive.ReorderedIsRead` | scripts/backup_bundle.py:487-538 | Every reordering of a readable archive is readable, with the same values. |
| `ArchiveMeaning.ReadableExactly` | scripts/backup_bundle.py:487-538 | An archive is read if and only if its names are distinct, each member is a plain file within the size limit and with a safe name, and the one manifest has the schema, no chain data, and a record with the right mode and hash for each catalogued file, or none for a setting added later, and lists every member. |
| `ArchiveMeaning.DecodedExactly` | scripts/backup_bundle.py:506-536 | What is read of a file is the content of the member of its name, if there is one, and absent otherwise. |
| `BackupGuard.AcceptedIsOwn` | scripts/backup_guard.py:70-93 | An archive is accepted if and only if context, versions, active record, policy and rendered files are the device's own, up to the older layouts of three files. |
| `BackupGuard.SixTorForms` | scripts/backup_guard.py:13-20 | A Tor configuration is accepted in exactly six forms: with both later services, without the explorer, without either, each with the present or the former wallet port; and the present one is installed. |
| `BackupGuard.NormalisationIsStable` | scripts/backup_guard.py:70-98 | Applying the guard's normalisation a second time accepts and changes nothing. |
| `BackupGuard.NormalisedHashesHold` | scripts/backup_guard.py:94-98 | A snapshot that registered its configuration correctly still does after normalisation, so it passes the check made after installation. |
| `BackupGuard.OnlyInstalledListeners` | scripts/backup_guard.py:70-98 | Whatever was archived, the installed Tor, indexer and launcher configurations are the device's own; every other file is the archived one. |
| `BackupGuard.TorListens` | scripts/backup_guard.py:13-20 | The installed Tor configuration has every peer listener on the selected network's port, and is the template everywhere else. |
| `BackupCycle.ReadIsWritten` | scripts/backup_bundle.py:487-538 | Decoding an archive that carries the written manifest gives the written values of the catalogued files. |
| `BackupCycle.RestoreBundle` | scripts/backup_bundle.py:664-709 | Restoring a bundle whose archive carries the written manifest leaves the device with exactly the normalised written values; left alone, a written archive is restored exactly when no restore is unfinished, it fits the limits, the guard accepts it and the installed state is accepted. |
| `BackupCycle.Incoming` | scripts/backup_guard.py:70-98 | What is handed to the restore is the decoded and normalised content, for a written archive exactly when it fits and the guard accepts it. |
| `ChainNames.ScopePaths` | scripts/chain_reset.py:116-117 | The allowlist is exactly four directories and three files of Core's folder for the network, and the indexer's database of the network, by name. |
| `ChainNames.AcceptedNames` | scripts/chain_reset.py:150-165 | A subtree is accepted if and only if all entries are directories or files without further links, every inner directory is one of six, and every file is a numbered or fixed database file, a block file in the blocks folder, or one of three others. |
| `ChainNames.ScopeKinds` | scripts/chain_reset.py:177-185 | In an accepted scope each allowlisted name is a directory or a file as expected. |
| `ChainNames.ClearedKeeps` | scripts/chain_reset.py:205-228 | A completed reset keeps exactly the entries under none of the eight paths. |
| `ChainReset.AcceptedChildren` | scripts/chain_reset.py:141-175 | A directory whose children are each reviewed and acceptable is acceptable as a whole, at any depth. |
| `ChainReset.AcceptedChild` | scripts/chain_reset.py:141-175 | And the other way round. |
| `ChainReset.AcceptanceIsKept` | scripts/chain_reset.py:177-185 | Any partial deletion of an acceptable scope is acceptable, so an interrupted reset is never refused. |
| `ChainReset.SameCleared` | scripts/chain_reset.py:177-185 | A partial deletion finishes to the same tree as an untouched one. |
| `ChainReset.Scope.RootsApart` | scripts/chain_reset.py:116-117 | No two allowlisted entries have anything in common. |
| `ChainReset.Scope.OutsideScope` | scripts/chain_reset.py:116-117 | The lock file and the retained folders are in none of them. |
| `ChainReset.Volume.Visit` | scripts/chain_reset.py:141-175 | Without deletion it accepts exactly the acceptable subtrees and changes nothing; with deletion it removes exactly the subtree, never a directory that is not empty. |
| `ChainReset.Volume.Scan` | scripts/chain_reset.py:177-185 | A validating scan accepts exactly an acceptable scope; a deleting scan leaves exactly the rest of the tree. |
| `ChainReset.Volume.Run` | scripts/chain_reset.py:205-228 | A refused request unlinks nothing; a completed reset leaves exactly the tree without the allowlisted subtrees, and the lock file; it succeeds exactly when admitted, anchored and accepted. |
| `ChainReset.Volume.ResetUntilDone` | scripts/chain_reset.py:205-228 | However often it is interrupted, the reset ends in the same tree. |
| `DiskInventory.Grow` | scripts/disk_inventory.py:18-22 | The worklist terminates and adds to a closed set exactly the starts and all their ancestors, over a graph with several parents and even cycles. |
| `DiskInventory.CollectProtected` | scripts/disk_inventory.py:14-22 | `protected` is exactly the reflexive ancestor closure of the devices mounted at / or under /boot. |
| `DiskInventory.CollectUsed` | scripts/disk_inventory.py:23-30 | `in_use` is exactly the strict ancestor closure of the mounted devices. |
| `DiskInventory.Index.Visit` | scripts/disk_inventory.py:9-13 | The recursive walk records each place once, the latest place of each name, and each edge to a parent. |
| `DiskInventory.CountUuids` | scripts/disk_inventory.py:31-33 | The counts are the numbers of distinct devices with each UUID. |
| `DiskInventory.OneCarrier` | scripts/disk_inventory.py:45-45 | The count differs from one exactly when another device carries the same UUID. |
| `DiskInventory.Classify` | scripts/disk_inventory.py:7-55 | Exactly one row for each device, in order of first sight, decided by the true closures over the graph of the whole listing. |
| `DiskInventory.OfferedIsSafe` | scripts/disk_inventory.py:39-50 | A device offered for review is no system device, not mounted, not above any such device, writable, and the only one with its UUID. |
| `DiskInventory.OfferedExactly` | scripts/disk_inventory.py:36-50 | An existing filesystem is offered if and only if nothing is mounted on the device or inside it, it is a writable disk or partition, and its ext4 UUID is its own; a new one if and only if such a device is empty and has a lasting identity. |
| `DiskInventory.ReasonsInOrder` | scripts/disk_inventory.py:36-42 | A row names first a part of the running system, then a read-only device, then the mounted data volume, and offers none of them. |
| `CompactionMeaning.LogMeans` | scripts/electrs_compaction.py:60-132 | A log is readable if and only if no line is too long and no event spoils it; for each family its accounting then holds what the files hold that jobs announced for the first time while under way. |
| `CompactionMeaning.ProgressMeans` | scripts/electrs_compaction.py:60-132 | The same of an observer and the part of the log it has read, however it was cut. |
| `CompactionMeaning.SinceMeans` | scripts/electrs_compaction.py:76-100 | A job is under way if and only if it was started by hand and has not finished since. |
| `Compaction.ObservedKeepsFair` | scripts/electrs_compaction.py:60-100 | Each log line keeps the accounting fair: no output file counted twice for one opening of a job, totals equal to what was counted, at most 128 jobs. |
| `Compaction.ReadKeepsTracks` | scripts/electrs_compaction.py:123-132 | One more read, cut anywhere, keeps the state a function of the log read so far. |
| `Compaction.SplitContinues` | scripts/electrs_compaction.py:123-124 | Splitting what was left over together with the next chunk gives the lines of the whole text. |
| `Compaction.ReadablePrefix` | scripts/electrs_compaction.py:123-132 | A log that was found unreadable is unreadable however it continues. |
| `Compaction.TwoObservers` | scripts/electrs_compaction.py:41-133 | Two observers started at the same place of one growing log, each reading at its own moments, end with equal validity and, while valid, with the equal state that the part of the log as a whole accounts for. |
| `Compaction.CutsDoNotMatter` | scripts/electrs_compaction.py:60-133 | Two observers of the same part of a log agree on validity, and while it is valid on the whole accounting, wherever their reads ended. |
| `Compaction.CountedFairly` | scripts/electrs_compaction.py:83-98 | At every moment the outputs are the sum of counts without repetition. |
| `Compaction.Progress.Observe` | scripts/electrs_compaction.py:60-100 | Each line changes the fields as the accounting says. |
| `Compaction.Progress.ReadLog` | scripts/electrs_compaction.py:102-133 | A read consumes the next part of the log, or starts over after a rotation, which invalidates a running account. |
| `Compaction.Progress.Estimate` | scripts/electrs_compaction.py:162-171 | The published figure is the larger of the last one and the estimate, below 100%; the estimate is the whole count of the finished families and, of the current one, what has been counted, at most its own count. |
| `Compaction.Progress.Watch` | scripts/electrs_compaction.py:147-171 | Over any sequence of polls the published basis points never decrease and stay within 0..9999. |

## Left out

- Root, systemd, socket, RPC and subprocess plumbing: only its success or failure appears.
- Descriptor-level detail of file access (no-follow opens, mount and inode identities, fsync order): a write is one step and the scanned tree is quiescent.
- Selections: binary path, digest and policy file are functions of the instance in `VersionModel`, so checks that the target binary is unchanged appear as outside failures.
- Journal error texts, receipts, volume identifiers and inode anchors of the version journal and the guard: not part of the model; a refusal because of them is an outside failure.
- Policy checks inside the version change (target policy revision, preflight): outside failures.
- VersionProtocol.Appliance.Reset: the worker there unlinks entries of a flat set one by one; what it validates and deletes in a directory tree is `ChainReset`.
- Policy error texts: a refusal is one value, and the model does not say which of several violated rules is reported.
- Policy previews: changes, warnings and the observation of the running node are presentation or observe other programs.
- Size limits of the two Python readers on the policy file, and their ownership checks: not part of the model.
- PolicySaved.SavedIsFixed: speaks of a file the service rendered; files edited by hand are covered where the current values can be read at all (`UneditedTextKeepsPolicy`).
- Review and preview tokens, their expiry and request framing in the three services: `OperationLock` begins where a service asks for the lock; the services are a step system rather than classes, because what is proved is about their interleavings.
- OperationLock.TransactionsNeverOverlap: a terminal version phase is written only when the configured profile is the selected one, which is `FinishedIsConfigured` of the version protocol; the restored files of a backup are not part of that step system, nor is what putting them back does to an unfinished version change.
- BackupRestore.Device.FinishRollback: may be cut off by a crash at any point, but is taken not to raise an exception part-way.
- BackupRestore.Device.RestoreThenRecover: nothing but the restore and its recovery touches the catalogued files meanwhile; the services started for the health check may write some of them, such as the web preferences.
- BackupRestore.Device.Restore: the context recorded in the journal and file modes and owners are not modelled.
- BackupArchive.Decode: the checks on hosts, keys and certificates made after decoding are not part of this model, nor is the curve arithmetic of Tor identities.
- ChainReset.Volume.Run: the receipt, the free-space reserve and the wallet guard are one outcome, `admitted`.
- DiskInventory.Classify: the descriptive texts and the digest of a row are left out; removing control characters from a mount point is a function parameter.
- Compaction.Progress.ReadLog: the JSON of a line is a function parameter, and metrics parsing is left out.
- Web interface, translations, wallets, sessions, rate limits, log rotation, image building and evidence scripts: presentation, or outside the protocols modelled here.
