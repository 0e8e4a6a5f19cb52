# AFOS in Dafny

AFOS is a small application environment that runs on a desktop host or directly on hardware. Its writable files live
in a tree in memory that is committed, as a whole, to a two-slot snapshot store on a block device. Applications reach
files, the clock and the network only through a capability check that asks the user each time. This project models
that core and proves what it promises: what a power loss can leave behind, what a reboot finds, what a rename moves,
which requests an application can get through, and what one page-table edit changes.

## How the model is laid out

| file | part of AFOS |
|---|---|
| `Words.dfy`, `Utf8.dfy`, `Order.dfy` | little-endian words, 64-bit FNV-1a (section 2 of draft-eastlake-fnv), UTF-8, the order of a B-tree over strings |
| `Codec.dfy`, `Format.dfy`, `Resave.dfy` | the snapshot payload: writing and reading a file tree, and the format spelled out on its own |
| `Disk.dfy` | a block device with a volatile write-back cache |
| `Snapshot.dfy`, `Protocol.dfy`, `Losses.dfy`, `Store.dfy` | headers and slots, the save protocol as a state machine, two ways it loses a saved tree, the store itself |
| `Paths.dfy`, `Normalize.dfy` | splitting and joining paths, ancestry, `normalize_path`, prefix tests |
| `Tree.dfy`, `Rename.dfy`, `Platform.dfy`, `Boot.dfy` | the bare-metal tree, relocation, the storage operations, seeding and reboot |
| `Listing.dfy`, `SystemTable.dfy`, `Vfs.dfy`, `Views.dfy` | directory listings, the read-only `/sys` table, routing, what reads see after writes |
| `Limiter.dfy`, `Hex.dfy`, `Security.dfy` | the password rate limiter, the password file, verification and change |
| `AppData.dfy`, `Effects.dfy`, `Session.dfy`, `Consent.dfy` | application data, what each effect does to storage, authorisation and its trace, what each effect takes |
| `PasswordFile.dfy`, `Conduct.dfy` | which effects the password file outlives, what whole runs of an application do to storage |
| `Tokenizer.dfy`, `Spelling.dfy`, `Shell.dfy`, `Commands.dfy`, `Accounts.dfy` | the command line and how it is spelled, the current directory, the decision to trust an application, what holds of every run of the shell |
| `PageTable.dfy` | `map_device_page` and the four-level walk (VMSAv8-64 descriptors, section D8.3 of the Arm Architecture Reference Manual for A-profile) |

`dafny verify dfyconfig.toml` checks the whole project.

## Decisions

- **Device.** A disk is what each sector reads as, together with the set of contents each sector may have after a power
  loss: its content at the last flush and everything written since. A failed write has overwritten any of its sectors,
  a failed flush has settled any of them. One sector, so one header, is atomic. A power loss empties the cache; a reset
  of the machine alone leaves it to the device. `reliable` marks a device whose calls never fail.
- **Checksum.** FNV-1a is modelled exactly and is not assumed free of collisions. Where the generations already decide,
  the theorems need nothing of it; where they do not, the collision is named in the statement.
- **Runs.** `Protocol.Machine` passes through one state per device call. `Store.SnapshotStore.Save` records the states
  it goes through, so theorems about runs of the machine speak about the store's own history.
- **Well-formed trees.** Correctness of remove, rename and of the early error returns rests on an invariant that the
  source leaves unstated: files and directories are apart and every proper ancestor is a directory. Every storage
  operation keeps it. A tree restored from a device that AFOS did not write need not have it.
- **Lengths.** Sizes are unbounded integers. `TooLarge` also refuses a payload longer than a 64-bit word can say; no
  `Vec` of the source can be that long.
- **Documentation and code.** The filesystem documentation says that writable changes survive a reboot. The code
  re-seeds when the recovered tree is empty (`Boot.BootTree`), and a rename of a missing source leaves new directories
  in memory that are not on disk (`Platform.BareMetalPlatform.StorageRename`). `open` does not flush, so after a reset
  in the middle of a save it can mount a slot that is only in the device's cache, and the next save then overwrites
  the only slot on the medium (`Losses.ResetCanLoseAll`). The security documentation says that the
  password file is blocked from every application and that changing the password requires the old one. The code checks
  the paths of requests only: an application called ".." reaches the file as its own data, without a request, and a
  rename of "/user" or "/user/config" takes the file along; a directory that a rename puts in its place turns the
  question for a password on, and no password passes. The model follows the code in each case and states exactly
  what holds.

Some expected properties do not hold as one would first state them. Each has an exact condition: a save is found by
the next `open` unless the generation counter is exhausted and the save went to slot 1 (`CommitVisibleIff`,
`SaturationLosesSave`); crash safety outlives a reset that keeps the device's cache exactly when the mounted slot is
the same or has reached the medium (`ReopenKeepsInvIff`, `ResetIsSafeIff`, `ResetCanLoseAll`); seeding gives a
well-formed tree exactly when no seed is an ancestor of an earlier one (`SeededWellFormedIff`, `SeedingCanCollide`);
application data stays in its directory exactly when the identifier is neither "." nor ".." (`ConfinedIff`); a
successful effect keeps the password file exactly when it is neither a rename of a directory that holds it nor
application data written to it (`KeepsPasswordIff`, `RenamingConfigUnseats`, `ParentIdUnseats`), and the latter takes
the identifier ".." (`DataReachesPasswordIff`), and where there is nothing a file or a directory is put there exactly
by a rename or by such data (`InstallsPasswordIff`, `RenamingOntoConfigInstalls`, `RenamingOntoConfigLocksOut`);
splitting at a space commutes with splitting exactly when an even number of backslashes ends the first line
(`SplitsAtSpaceIff`); a rate-limit block is exact exactly when the clock does not saturate (`BlockIsExactIff`); the
page-table edit leaves other pages alone exactly when no block descriptor lies on its path (`OtherPagesKeptIff`).

## Model

| member | source | states |
|---|---|---|
| Words.Checksum | crates/afos-storage/src/lib.rs:326-333 | the loop computes the checksum that `FnvOfNothing` and `FnvOfMore` pin down, and its value fits 64 bits |
| Words.LeByte | crates/afos-storage/src/lib.rs:196-204 | the byte at position i of a word counts 256 to the power i |
| Words.FnvOfNothing | crates/afos-storage/src/lib.rs:327 | the checksum of no bytes is the published offset |
| Words.FnvOfMore | crates/afos-storage/src/lib.rs:328-331 | one more byte makes of the checksum its exclusive or with the byte, bit by bit, times the published prime modulo 2^64 |
| Words.FnvOfA | crates/afos-storage/src/lib.rs:326-333 | the checksum of "a" is the published 0xaf63dc4c8601ec8c |
| Words.PrimeIsInvertible | crates/afos-storage/src/lib.rs:330 | multiplication by the FNV prime modulo 2^64 is undone by multiplication by its inverse |
| Words.FnvStepInjective | crates/afos-storage/src/lib.rs:328-331 | one round is injective in the hash and, for equal hashes, in the byte |
| Words.OneByteChangesFnv | crates/afos-storage/src/lib.rs:326-333 | replacing any one byte by a different one changes the checksum |
| Utf8.DecodeEncode | crates/afos-storage/src/lib.rs:281-289 | every string's UTF-8 bytes decode to it |
| Utf8.EncodeDecode | crates/afos-storage/src/lib.rs:281-289 | bytes that decode are the encoding of what they decode to |
| Utf8.EncodedScalar | crates/afos-storage/src/lib.rs:259-270 | the scalar value of every character is spread over one to four bytes as RFC 3629 lays out |
| Order.LessIff | crates/afos-storage/src/lib.rs:209-221 | comparing UTF-8 bytes is comparing characters: a proper prefix, or the smaller character at the first difference, comes first |
| Order.EnumerationUnique | crates/afos-storage/src/lib.rs:209-221 | a strictly ascending list of the keys is the one order in which the collections are walked |
| Order.InOrder | crates/afos-storage/src/lib.rs:209-221 | walking a collection visits its keys in that order |
| Codec.WriteTree | crates/afos-storage/src/lib.rs:206-223 | writes directories and files in order after their counts, and fails exactly for a tree that exceeds a limit |
| Codec.WriteString | crates/afos-storage/src/lib.rs:259-270 | appends length and bytes, and fails exactly for a path over 4096 bytes |
| Codec.ReadTree | crates/afos-storage/src/lib.rs:225-245 | the cursor loops compute the tree that the whole payload denotes, or report corruption |
| Codec.ReadString | crates/afos-storage/src/lib.rs:281-289 | reads one string and advances the cursor past it, or reports corruption |
| Codec.RoundTrip | crates/afos-storage/src/lib.rs:206-245 | every tree that can be encoded decodes to itself with nothing left over |
| Codec.EncodingInjective | crates/afos-storage/src/lib.rs:206-223 | different trees have different encodings |
| Format.EncodesIff | crates/afos-storage/src/lib.rs:206-223 | a tree is written exactly when it has at most 100000 directories and files and no path over 4096 bytes, and then as the two counted lists, each in the order of paths, spelled byte by byte |
| Format.DecodesIff | crates/afos-storage/src/lib.rs:225-245 | a payload decodes exactly when it spells two counted lists within the limits and nothing else, in any order and with repetitions, to the tree of those, the last file of a path counting |
| Resave.ResaveFits | crates/afos-storage/src/lib.rs:225-245 | the tree of any payload that decodes, unsorted or repeated entries included, encodes in no more bytes |
| Store.OpenedFits | crates/afos-storage/src/lib.rs:118-125 | saving a tree that was just opened is never refused as too large |
| Snapshot.HeaderRoundTrip | crates/afos-storage/src/lib.rs:196-204 | a header that is written parses to its generation, length and checksum |
| Disk.BlocksForIff | crates/afos-storage/src/lib.rs:120-125 | bytes fit k blocks exactly when there are at most 512 for each |
| Snapshot.HeaderLayout | crates/afos-storage/src/lib.rs:196-204 | every byte of a header: the magic, version 1, three words at 16, 24 and 32, and zeros |
| Snapshot.HeaderKinds | crates/afos-storage/src/lib.rs:164-178 | a header is absent, foreign or present exactly as its first twelve bytes say, and its three words are those bytes |
| Snapshot.SlotFailsIff | crates/afos-storage/src/lib.rs:164-193 | reading a slot fails exactly when its header has the magic and a version word other than 1, which the error carries, or its payload passes the checksum without being a tree |
| Snapshot.SlotHoldsIff | crates/afos-storage/src/lib.rs:174-193 | a slot that can be read holds a snapshot exactly when its length fits the slot and the bytes behind the header have its checksum |
| Snapshot.RecoverFailsIff | crates/afos-storage/src/lib.rs:83-116 | `open` fails exactly when one of the two slots does, with the error of the first that does |
| Snapshot.ReadSlotLocal | crates/afos-storage/src/lib.rs:156-194 | reading a slot depends on that slot's sectors alone |
| Snapshot.ReadWrittenSlot | crates/afos-storage/src/lib.rs:156-194 | a slot that holds a header and its payload reads as the payload's tree |
| Snapshot.OneByteDamage | crates/afos-storage/src/lib.rs:189-191 | any one-byte change of a slot's payload makes `open` select the other slot |
| Protocol.SlotIsolation | crates/afos-storage/src/lib.rs:127-139 | whatever the generation, no device call of a save, failed or not, touches a sector of the active slot |
| Protocol.NextKeepsHeld | crates/afos-storage/src/lib.rs:118-143 | every event, failed calls, an exhausted counter and safe resets included, keeps the committed tree in the active slot and the payload in the other |
| Protocol.PowerLossOutcome | crates/afos-storage/src/lib.rs:83-116 | after a power loss in any state `open` fails exactly on a collision in the target slot and otherwise finds the committed tree or one that an attempt's header vouches for |
| Protocol.PowerLossExact | crates/afos-storage/src/lib.rs:83-143 | without device failures the outcome is decided by whether the new header is on the medium |
| Protocol.NextKeepsInv | crates/afos-storage/src/lib.rs:118-143 | every device call, every recovery and every safe reset keeps the invariant of the two slots |
| Protocol.CrashAtomicity | crates/afos-storage/src/lib.rs:83-143 | from a blank device, after any run of saves, power losses and safe resets, a power loss leaves the tree being saved if its header is on the medium and the last committed tree otherwise; `open` fails exactly on a checksum collision in a torn payload |
| Protocol.FoundWasSaved | crates/afos-storage/src/lib.rs:83-143 | whatever a clean run and a further power loss leave was given to some save of the run |
| Protocol.FaultTolerance | crates/afos-storage/src/lib.rs:118-142 | with device calls that fail part-way, safe resets and no bound on the run, a power loss leaves the last committed tree readable in the active slot; while generations are left `open` finds it, or a tree that an attempted save's header vouches for |
| Protocol.ReopenKeepsInvIff | crates/afos-storage/src/lib.rs:83-116 | a reset that leaves the device its cache keeps the invariant exactly when `open` mounts the same slot, or every sector of the other one has reached the medium |
| Protocol.ResetIsSafeIff | crates/afos-storage/src/lib.rs:83-116 | without device failures that is exactly when no header had just been written or its slot has reached the medium |
| Losses.ResetCanLoseAll | crates/afos-storage/src/lib.rs:83-143 | a reset between writing and flushing a header, then an edit of one byte and a power loss, can leave a device on which `open` finds nothing although the first save had returned success |
| Losses.ResetScenarioExists | crates/afos-storage/src/lib.rs:83-143 | that run can be carried out on every blank device with any trees that fit |
| Losses.EditChangesOneByte | crates/afos-storage/src/lib.rs:206-223 | editing one byte of one file changes one byte of the encoding |
| Losses.CanSave | crates/afos-storage/src/lib.rs:118-143 | from any state between saves a tree that fits can be saved |
| Protocol.DamageFallsBack | crates/afos-storage/src/lib.rs:91-102 | after a commit, one damaged payload byte brings back the tree that was replaced |
| Protocol.CommitReopens | crates/afos-storage/src/lib.rs:134-142 | a save that succeeds is what the next `open` finds |
| Protocol.CommitVisibleIff | crates/afos-storage/src/lib.rs:93-97 | that holds exactly when the generation can still grow, or slot 0 was written, or nothing changed |
| Losses.SaturationLosesSave | crates/afos-storage/src/lib.rs:136 | on every device at the last generation in slot 0, every run that saves a tree succeeds and the next `open` finds the old one |
| Losses.SaturatedSaveExists | crates/afos-storage/src/lib.rs:136 | such devices and such runs exist for any two trees that fit |
| Store.ReadSlotFrom | crates/afos-storage/src/lib.rs:156-194 | reads a slot through device calls that may fail; `SlotFailsIff` and `SlotHoldsIff` say with what outcome |
| Store.Open | crates/afos-storage/src/lib.rs:83-116 | mounts what recovery selects, refuses a device too small for two slots, fails as `RecoverFailsIff` says, reports device errors, and writes nothing |
| Store.OpensBlankIff | crates/afos-storage/src/lib.rs:83-116 | opening starts the protocol blank exactly when neither header is one of the format; a zeroed device is such a device |
| Store.SnapshotStore.Save | crates/afos-storage/src/lib.rs:118-143 | a tree too large causes no device call; a device failure leaves slot, generation and tree; success commits the tree; every state on the way is a step of the protocol |
| Store.SaveIsAtomic | crates/afos-storage/src/lib.rs:118-143 | at every moment of a save a power loss leaves the tree from before or the tree being saved |
| Store.SavedReopens | crates/afos-storage/src/lib.rs:373-388 | after a run that ends in a successful save, reopening finds what was saved |
| Store.SaveLays | crates/afos-storage/src/lib.rs:118-143 | a successful save puts the header and behind it the payload into the slot that was not active, under the next generation, and leaves every other sector as it was |
| Tree.AddLineageWellFormed | platforms/bare-metal/src/platform.rs:76-89 | adding unblocked ancestors keeps the tree well formed and adds exactly the path and what is above it |
| Tree.BlockedIff | platforms/bare-metal/src/platform.rs:76-89 | a path is blocked exactly when a file is at it or above it |
| Tree.PutFileWellFormed | platforms/bare-metal/src/platform.rs:174-182 | a write changes one file and adds exactly its ancestors, and keeps the tree well formed |
| Tree.RemoveSubtreeWellFormed | platforms/bare-metal/src/platform.rs:236-244 | exactly what is at or under the path goes, every other file keeps its content, and the tree stays well formed |
| Rename.RebasedInverse | platforms/bare-metal/src/platform.rs:382-385 | rebasing is undone by rebasing back |
| Rename.ChecksSuffice | platforms/bare-metal/src/platform.rs:247-268 | on a well-formed tree the checks rule out every overlap of source and destination |
| Rename.RelocatedExact | platforms/bare-metal/src/platform.rs:270-292 | every file and directory reaches its destination with its content, and each of the result has exactly one origin |
| Rename.RelocatedWellFormed | platforms/bare-metal/src/platform.rs:247-294 | a rename keeps the tree well formed |
| Rename.FileMoveIsRelocation | platforms/bare-metal/src/platform.rs:262-265 | moving a file is the same relocation, since nothing lies under it |
| Rename.RenameBackRestores | platforms/bare-metal/src/platform.rs:247-294 | renaming back passes every check and restores the files exactly and the directories but for added ancestors |
| Platform.BareMetalPlatform.AddParents | platforms/bare-metal/src/platform.rs:76-89 | adds the leading directories, fails exactly when one is a file, and then has changed nothing on a well-formed tree |
| Platform.BareMetalPlatform.Commit | platforms/bare-metal/src/platform.rs:95-108 | keeps the tree on success and restores the previous one on failure |
| Platform.BareMetalPlatform.StorageRead | platforms/bare-metal/src/platform.rs:163-172 | a file's content, or the right error |
| Platform.BareMetalPlatform.StorageWrite | platforms/bare-metal/src/platform.rs:174-182 | writes the file or changes nothing, with the exact error conditions; memory and disk stay in step |
| Platform.BareMetalPlatform.StorageCreateDirAll | platforms/bare-metal/src/platform.rs:225-229 | makes the directories or changes nothing |
| Platform.BareMetalPlatform.StorageRemove | platforms/bare-metal/src/platform.rs:231-245 | removes a file or a subtree or changes nothing |
| Platform.BareMetalPlatform.MoveSubtree | platforms/bare-metal/src/platform.rs:270-292 | the two loops compute the relocation |
| Platform.BareMetalPlatform.StorageRename | platforms/bare-metal/src/platform.rs:247-294 | relocates or fails with the exact error conditions; only a missing source leaves new directories in memory that are not on disk; a power loss meanwhile leaves the old tree or the new one |
| Boot.SeededWellFormedIff | platforms/bare-metal/src/platform.rs:59-68 | seeding fails exactly when a seed lies under an earlier one, and is well formed exactly when none is an ancestor of an earlier one |
| Boot.SeededContent | platforms/bare-metal/src/platform.rs:59-68 | a seeded file has the content of the last seed of its path |
| Boot.SeedingCanCollide | platforms/bare-metal/src/platform.rs:60-66 | seeding any path and then its parent succeeds and leaves the parent both a file and a directory |
| Boot.Seed | platforms/bare-metal/src/platform.rs:60-66 | the seeding loop builds that tree or reports the file in the way |
| Boot.BootKeepsIff | platforms/bare-metal/src/platform.rs:52-59 | a recovered tree that holds anything, be it one directory, is kept, and otherwise the seeds come back |
| Boot.Start | platforms/bare-metal/src/platform.rs:33-70 | memory holds the recovered tree, or the seeds when nothing or an empty tree was recovered, and is in step with the disk; a device that cannot be mounted, one of another format version included, is left as it was, and so is one that holds a tree |
| Boot.PerformAll | platforms/bare-metal/src/platform.rs:163-294 | any run of storage operations, failed ones included, keeps memory and disk in step, and each step makes of storage what its own operation does; memory holds extra directories only from renames of a missing source; a power loss during any operation leaves what was stored before it or what it made |
| Boot.ReopenYieldsMemory | platforms/bare-metal/src/platform.rs:95-108 | reopening, also after a power loss, yields exactly the files in memory and all directories but those that renames of a missing source left |
| Boot.Lives | platforms/bare-metal/src/platform.rs:33-108 | from a zeroed device, through any number of boots, runs of operations and power losses at any moment of them, every life begins with what had been stored before the operation that was cut short or with what that operation makes of it, or with the seeds if that was empty |
| Boot.CutIsBootable | platforms/bare-metal/src/platform.rs:33-70 | a power loss in any state of a save leaves a device from which the store goes on with its invariant |
| Listing.StorageList | platforms/bare-metal/src/platform.rs:184-223 | a name is listed exactly when it is one component and the joined path exists, once, in order, with kind and length |
| Listing.DirectChildIff | platforms/bare-metal/src/platform.rs:373-380 | the direct child of a prefix is the single component that completes the path |
| SystemTable.ListSystem | crates/afos-core/src/vfs.rs:227-256 | one entry for each name under the prefix, in order, told by the first file that has it |
| SystemTable.ListedIffExists | crates/afos-core/src/vfs.rs:213-256 | a name is listed exactly when it is one component and the joined path is a file or directory of the table |
| SystemTable.ListedKindIsRight | crates/afos-core/src/vfs.rs:242-252 | in a table where no file is an ancestor of another the kind and length are those of the joined path |
| Normalize.NormalizePath | crates/afos-core/src/vfs.rs:28-57 | the loops compute the component-stack walk |
| Normalize.FailsIff | crates/afos-core/src/vfs.rs:29-51 | fails exactly on a backslash, on a null character or on a step above the root |
| Normalize.NormalizedIsCanonical | crates/afos-core/src/vfs.rs:28-57 | from a canonical directory the result is canonical |
| Normalize.CanonicalIsFixed | crates/afos-core/src/vfs.rs:28-57 | a canonical path normalises to itself from anywhere |
| Normalize.NormalizedComposes | crates/afos-core/src/vfs.rs:28-57 | going to a and then to a relative b is going to a/b, in success and in failure |
| Normalize.NormalizedName | crates/afos-core/src/vfs.rs:29-52 | from a canonical directory one name leads to its entry, "." and nothing stay, ".." leads up and fails at the root, and a backslash or a null character fails |
| Normalize.NormalizedAbsolute | crates/afos-core/src/vfs.rs:33-40 | a path with a leading slash is the rest of it from the root, wherever one is |
| Normalize.PathPrefixIsComponentPrefix | crates/afos-core/src/system.rs:147-153 | on canonical paths both string prefix tests are the component prefix test |
| Vfs.RouteByFirstComponent | crates/afos-core/src/vfs.rs:201-211 | the first component decides the route, and storage only ever sees normalised paths under `apps` or `user` |
| Vfs.VirtualFileSystem.Exists | crates/afos-core/src/vfs.rs:103-112 | exactly what exists along each route, and permission denied outside the mounts |
| Vfs.VirtualFileSystem.Read | crates/afos-core/src/vfs.rs:114-123 | exactly the bytes, or the error, along each route |
| Vfs.VirtualFileSystem.List | crates/afos-core/src/vfs.rs:139-164 | exactly the direct children along each route, or the error |
| Vfs.VirtualFileSystem.Write | crates/afos-core/src/vfs.rs:130-137 | on success storage is the old one with the file put; sure to succeed where a file may be put and storage takes the tree; each refusal has its own error, for `/sys`, outside the mounts, on a directory and below a file |
| Vfs.VirtualFileSystem.CreateDirAll | crates/afos-core/src/vfs.rs:166-173 | adds exactly the leading directories, in storage only; sure to succeed when none is a file, and refused with the right error otherwise |
| Vfs.VirtualFileSystem.Remove | crates/afos-core/src/vfs.rs:175-189 | removes exactly the file or subtree, in storage only, and never a root directory; sure to succeed on what exists, and refused with the right error otherwise |
| Vfs.VirtualFileSystem.Rename | crates/afos-core/src/vfs.rs:191-199 | relocates in storage only, is sure to succeed when the target is free and not under the source, reports the first of its checks that fails, and on an error has at most made the target's ancestors |
| Vfs.RootLists | crates/afos-core/src/vfs.rs:139-160 | the root lists "sys", "apps" and "user", all directories |
| Vfs.RemovalKeepsStandard | crates/afos-core/src/vfs.rs:180-187 | no removal that is let through takes away "/apps", "/user" or one of the three standard directories below it |
| Views.ListedIffPresent | crates/afos-core/src/vfs.rs:103-164 | along every route a name is listed in a directory exactly when there is something of that name in it |
| Views.ListedKindReads | crates/afos-core/src/vfs.rs:114-164 | what is listed as a file of storage can be read and has the listed length, and a directory cannot be read |
| Views.ReadAfterWrite | crates/afos-core/src/vfs.rs:114-137 | a read sees what was last written there, under whatever spelling of the path, and every other read sees what it saw before |
| Views.ReadAfterRemove | crates/afos-core/src/vfs.rs:114-189 | after a removal what was at or below the path is not found, and every other read sees what it saw before |
| Views.ReadAfterRename | platforms/bare-metal/src/platform.rs:270-292 | after a rename the files below the new name are those of the old one letter by letter, nothing is left there, and every other file is as it was |
| Views.RebasedIs | platforms/bare-metal/src/platform.rs:382-385 | what follows the old name is kept letter by letter |
| Limiter.StateFollowsRejections | crates/afos-core/src/security.rs:55-93 | over any losing run the counters are those of the rejections so far and the block ends a delay after the last |
| Limiter.RateLimitBound | crates/afos-core/src/security.rs:86-91 | the n-th evaluated wrong password comes at least the summed delays after the third |
| Limiter.LeastWaitClosedForm | crates/afos-core/src/security.rs:86-91 | those delays sum to 1000(2^(n-3)-1) ms up to the ninth and then grow by 32000 ms each |
| Limiter.RefusalsDoNotExtend | crates/afos-core/src/security.rs:56-59 | a refusal changes nothing and never asks for more than 32 seconds |
| Limiter.RefusalWait | crates/afos-core/src/security.rs:56-59 | after the wait that a refusal asks for an attempt is evaluated again, and not a moment earlier |
| Limiter.BlockIsExactIff | crates/afos-core/src/security.rs:87-91 | exactly the attempts within the delay are refused if and only if the end of the block does not saturate |
| Hex.EncodeHex | crates/afos-core/src/security.rs:109-118 | the loop writes two digits for each byte |
| Hex.ReadHex | crates/afos-core/src/security.rs:120-133 | the loop reads pairs of digits of either case, or fails |
| Hex.HexRoundTrip | crates/afos-core/src/security.rs:109-144 | what is written is read back |
| Hex.HexIsLowerCase | crates/afos-core/src/security.rs:109-118 | only lower-case digits are written |
| Hex.DecodesHexIff | crates/afos-core/src/security.rs:120-144 | a string is read exactly when it has two digits of either case for each byte, the more significant first |
| Hex.LinesSpell | crates/afos-core/src/security.rs:61-67 | a carriage return before a newline is not part of the line, and the last line needs no newline |
| Security.ConfigRoundTrip | crates/afos-core/src/security.rs:44-48 | the password file's three lines parse to the salt and hash they were made from |
| Security.ConfigLayout | crates/afos-core/src/security.rs:44-48 | the password file is the tag "AFOS-AUTH-1", 32 digits of salt and 64 of hash, one line each |
| Security.ParsesIff | crates/afos-core/src/security.rs:61-77 | a password file is read exactly when its first three lines are the tag and the digits of a 16-byte salt and a 32-byte hash |
| Security.SecurityRoute | crates/afos-core/src/security.rs:8 | the password file's path is canonical and leads to writable storage |
| Security.SecurityManager.Verify | crates/afos-core/src/security.rs:55-94 | one step of the limiter on the record of attempts: the time left while blocked, the error of an unreadable verifier, success or failure as the password is right or wrong |
| Security.SecurityManager.SetPassword | crates/afos-core/src/security.rs:31-53 | stores a verifier that parses back, or removes it for an empty password, and resets the limiter; a failure changes nothing |
| Security.SetThenVerify | crates/afos-core/src/security.rs:31-94 | from the bytes that setting a password writes, another passes exactly when the derivation cannot tell the two apart |
| AppData.Confined | crates/afos-core/src/system.rs:223-231 | what resolves is canonical, is the path acted on, and lies in the application's own directory |
| AppData.Separate | crates/afos-core/src/system.rs:303-312 | different identifiers never reach a common path |
| AppData.Reachable | crates/afos-core/src/system.rs:223-231 | every path in the application's own directory can be named |
| AppData.ConfinedIff | crates/afos-core/src/system.rs:195-231 | confinement holds for every input exactly when the identifier is neither "." nor ".." |
| AppData.ReachedUnderHome | crates/afos-core/src/system.rs:223-231 | what any identifier reaches lies in the directory that its own directory normalises to |
| AppData.HomeReached | crates/afos-core/src/system.rs:223-231 | and every path under that directory is reached |
| Session.System.Authorize | crates/afos-core/src/system.rs:99-144 | succeeds only for a declared request, not for the password file's own path, that, for an untrusted application, was just granted by a yes and the password that storage verifies; sure to succeed for a trusted application or a willing user; never touches storage; each password typed is one attempt on record, and all were let through by the limiter if it succeeds |
| Session.System.Check | crates/afos-core/src/system.rs:136-142 | a typed password is let through only if storage verifies it, and surely then unless blocked; the attempt goes on record, and the record is cleared only by a right password that is not refused |
| Session.System.ChangePassword | crates/afos-core/src/system.rs:55-64 | whoever succeeds first typed the password that storage verified and the limiter let through; the right lines always succeed; a failure leaves storage alone and stays on record as one attempt |
| Session.System.PromptNewPassword | crates/afos-core/src/system.rs:66-83 | storage then holds the verifier of a password typed twice, or none for an empty one, and the limiter is fresh |
| Session.System.Permit | crates/afos-core/src/system.rs:258-346 | an effect is done only after all its requests were granted in turn, and every answer is a line typed meanwhile |
| Session.AppSession.ConsoleReadLine | crates/afos-core/src/system.rs:251-256 | the next typed line goes to the application and is spent; it is no answer to any request |
| Session.AppSession.ReadFile | crates/afos-core/src/system.rs:258-263 | the text of the authorised path itself, or nothing done and an error |
| Session.AppSession.ListFiles | crates/afos-core/src/system.rs:272-277 | the listing of the authorised path itself, or nothing done and an error |
| Session.AppSession.WriteFile | crates/afos-core/src/system.rs:265-270 | puts the text at the authorised path itself, or leaves storage as it was |
| Session.AppSession.CreateDirs | crates/afos-core/src/system.rs:279-284 | adds the leading directories of the authorised path itself, or leaves storage as it was |
| Session.AppSession.Remove | crates/afos-core/src/system.rs:286-291 | removes the file or subtree at the authorised path itself, or leaves storage as it was |
| Session.AppSession.Rename | crates/afos-core/src/system.rs:293-301 | two grants, then the relocation of the authorised paths; a failure has at most made the target's ancestors |
| Session.AppSession.NetConnect | crates/afos-core/src/system.rs:333-346 | a connection is opened and owned only after its grant |
| Session.AppSession.ReadAppdata | crates/afos-core/src/system.rs:303-306 | reads without a grant but only where the path resolves inside the application's directory |
| Session.AppSession.WriteAppdata | crates/afos-core/src/system.rs:308-312 | writes without a grant but only where the path resolves inside the application's directory |
| Session.PerformAll | crates/afos-core/src/system.rs:234-374 | in every session run the trace is made of one piece for each call, which ends in that call's own effect or in none, is authorised against the password that storage held when it began, and changes storage exactly as its effect does; the answers are the typed lines, each used once and in order; the attempts on record are those before and one for each password typed since the last right one, and no effect is done on a refused one |
| Session.EffectNeedsGrants | crates/afos-core/src/system.rs:99-144 | in such a piece an untrusted effect comes last, after exactly one question, yes and password check for each request that it needs |
| Consent.IsYesIff | crates/afos-core/src/system.rs:128-134 | only "y" and "yes", each letter in either case, are a yes |
| Consent.CoversIff | crates/afos-core/src/system.rs:155-170 | a declared directory admits the same kind of access to itself and what is below it, a host pattern the host in any case or, as "*", every host, and clock and system information only themselves |
| Consent.AllowedIff | crates/afos-core/src/system.rs:105-117 | the checks let a request through exactly when some declaration admits it and it is clear of the password file and all below it |
| Consent.EffectIsSanctioned | crates/afos-core/src/system.rs:258-346 | effect by effect: reading and listing take one consent to read that path, writing, making and removing one to write it, a rename two, clock, system information and a connection one each, application data none; each is declared, and asked, answered yes and confirmed by the password unless the application is trusted |
| Consent.DecimalSpells | crates/afos-core/src/system.rs:333-346 | the port in a request is spelled in decimal digits |
| Effects.EffectConfined | crates/afos-core/src/system.rs:258-312 | an effect changes storage only at or under the paths it was authorised for or the application's data, and above them only by new directories |
| Effects.EffectKeepsRooted | crates/afos-core/src/vfs.rs:201-211 | storage keeps to paths under `apps` and `user` |
| PasswordFile.KeepsPasswordIff | crates/afos-core/src/system.rs:105-114 | where there is a password file, an effect that passed the checks and succeeds keeps it exactly when it neither renames a directory that holds it nor writes other application data to it |
| PasswordFile.KeepsDirectoryIff | crates/afos-core/src/system.rs:105-114 | where a directory is in its place, such an effect keeps it exactly when it does not rename a directory above |
| PasswordFile.InstallsPasswordIff | crates/afos-core/src/system.rs:105-114 | where there is nothing, such an effect puts a file or a directory in its place exactly when it renames something that lands there or writes application data at or below it |
| PasswordFile.DisturbsIff | crates/afos-core/src/system.rs:105-114 | in every case, what is in the password file's place changes exactly under those conditions |
| PasswordFile.FailureDisturbsNothing | crates/afos-core/src/system.rs:105-114 | nor does an effect that fails change it, half-done renames included, unless the application's own directory lies inside |
| PasswordFile.SamePasswordsPass | crates/afos-core/src/security.rs:55-94 | while it stays as it is, whatever else changes, the same passwords pass |
| PasswordFile.DataReachesPasswordIff | crates/afos-core/src/system.rs:223-231 | an identifier reaches the password file as application data exactly when it is ".." |
| PasswordFile.OnlyParentIdLeadsInside | crates/afos-core/src/system.rs:223-231 | no other identifier reaches anything below the password file or has its directory there |
| PasswordFile.ParentIdUnseats | crates/afos-core/src/system.rs:308-312 | an application called ".." overwrites the password file of any storage without a request |
| PasswordFile.RenamingConfigUnseats | crates/afos-core/src/system.rs:293-301 | renaming "/user/config" passes the checks, leaves no password file and its content under the new name |
| PasswordFile.RenamingOntoConfigInstalls | crates/afos-core/src/system.rs:293-301 | renaming a directory with a file "security" to "/user/config" passes the checks and makes that file the password file |
| PasswordFile.RenamingOntoConfigLocksOut | crates/afos-core/src/system.rs:293-301 | with a directory "security" instead, the same rename passes the checks, and no password passes any more |
| PasswordFile.ReadTextIsBlind | crates/afos-core/src/system.rs:258-263 | no read that passed the checks depends on what the password file contains |
| PasswordFile.DataReadIsBlindIff | crates/afos-core/src/system.rs:303-306 | no read of application data does, exactly when the identifier is not ".." |
| Conduct.RootWriterMayRenameConfig | crates/afos-core/src/system.rs:105-117 | an application that declares `fs.write:/` is allowed every request of that rename |
| Conduct.RunConfined | crates/afos-core/src/system.rs:258-312 | over any run of an application storage changes only at or under the paths it was authorised for or its own data, and above them only by new directories |
| Conduct.RootIsEntitled | crates/afos-core/src/system.rs:99-144 | each of those paths is that of a request that was declared and let through, or application data that resolved |
| Conduct.CallsConfine | crates/afos-core/src/system.rs:234-374 | what a run does to storage can be told from its calls: only at, under or above the paths they name, and nothing if they name none to write |
| Conduct.PasswordSurvives | docs/SECURITY.md:30-31 | the password file and its content, or whatever is in its place, outlive every run of an application not called ".." that does not rename "/user" or "/user/config" |
| Conduct.PasswordStaysAway | docs/SECURITY.md:30-31 | where there is nothing, no run of an application not called ".." puts a file or a directory there unless it renames something to "/user" or "/user/config" |
| Tokenizer.SplitCommandLine | crates/afos-core/src/shell.rs:218-262 | the loop computes the splitting that `SpelledSplits` and `SplitFailsIff` pin down for every line |
| Tokenizer.WordsAreNotEmpty | crates/afos-core/src/shell.rs:244-260 | no word is empty |
| Tokenizer.SplitsAtSpace | crates/afos-core/src/shell.rs:224-251 | two lines joined by a space split as they do apart when an even number of backslashes ends the first |
| Tokenizer.SplitsAtSpaceIff | crates/afos-core/src/shell.rs:252-254 | and exactly then, for every second line |
| Tokenizer.PendingIff | crates/afos-core/src/shell.rs:226-234 | an escape is pending after a line, in quotes or not, exactly when an odd number of backslashes ends it |
| Tokenizer.EscapingRoundTrip | crates/afos-core/src/shell.rs:218-262 | any list of nonempty words, escaped and joined with spaces, splits back into the list |
| Spelling.EveryLineReads | crates/afos-core/src/shell.rs:224-251 | every line consists of plain, escaped and quoted characters and of gaps, perhaps with a quote left open or a last backslash |
| Spelling.SpelledSplits | crates/afos-core/src/shell.rs:218-262 | a line with all quotes closed splits at its gaps, and what touches is one word |
| Spelling.LastBackslashStays | crates/afos-core/src/shell.rs:252-254 | a backslash at the very end stands for itself |
| Spelling.SplitFailsIff | crates/afos-core/src/shell.rs:255-257 | splitting fails exactly on a line with a quote left open |
| Spelling.PlainWordsSplit | crates/afos-core/src/shell.rs:244-250 | words without whitespace, quotes and backslashes, with any whitespace between them, split back |
| Spelling.QuotedWord | crates/afos-core/src/shell.rs:235-243 | between either kind of quotes everything but that quote and a backslash is itself, whitespace included |
| Spelling.TouchingQuotes | crates/afos-core/src/shell.rs:235-250 | a plain and a quoted part that touch are one word |
| Spelling.WhitespaceIs | crates/afos-core/src/shell.rs:244 | whitespace is the Unicode property White_Space |
| Shell.BundledLeadsToTable | crates/afos-core/src/shell.rs:148-150 | a path of a bundled application's form always leads into the boot table |
| Shell.BundledIsFixed | crates/afos-core/src/shell.rs:190-199 | nothing in writable storage changes which path, or which bytes, a bare command runs when the boot table holds a supported application of that name |
| Shell.BareFinds | crates/afos-core/src/shell.rs:190-200 | a bare command is looked for as NAME.rhai, or as it stands if it has a dot, in "/sys/apps" and then in "/apps"; a lookup that fails ends the search |
| Shell.PathFindsIff | crates/afos-core/src/shell.rs:172-188 | a command with a slash finds its own path if that is usable, else that path with the extension if its last part has no dot and it exists |
| Shell.RunnableIff | crates/afos-core/src/shell.rs:140-152 | the source of an application is a text of at most 1048576 bytes whose directives can be read |
| Shell.Afos.ResolveCommand | crates/afos-core/src/shell.rs:171-201 | a bare command finds the first usable candidate of the two roots; one with a slash finds its normalised path if usable, or that path with the extension |
| Shell.Afos.ExecuteApp | crates/afos-core/src/shell.rs:140-169 | runs exactly what the command finds if a runtime claims it, under the identity its source declares, trusted only with the bytes of a boot-table entry; all it does is authorised and on record, also when the runtime ends in an error; starts nothing exactly when there is nothing to start |
| Shell.Afos.ChangeDirectory | crates/afos-core/src/shell.rs:92-98 | moves to the normalised target exactly when it can be listed, and stays otherwise |
| Shell.Afos.ChangePassword | crates/afos-core/src/shell.rs:115-122 | a change is on record with the lines typed, the old password first and let through by the limiter; an attempt that failed is on record as well |
| Shell.Afos.RunCommand | crates/afos-core/src/shell.rs:84-138 | only `cd` moves the current directory, only an application that the line names is started, only it or a password change touches storage, and only `exit` leaves, with the status asked for or an error if that is none |
| Commands.OneWordAsks | crates/afos-core/src/shell.rs:91-137 | a line of one plain word is one of the six commands, or names the application to start |
| Commands.CommandsAlone | crates/afos-core/src/shell.rs:92-131 | `cd` goes to "/user", `exit` leaves with 0, `passwd` and `setup` set the password, `run` and `clear` start nothing |
| Commands.TwoWordsAsk | crates/afos-core/src/shell.rs:91-137 | the second of two words is the directory to go to, the application to run or the status to leave with |
| Commands.StatusIff | crates/afos-core/src/shell.rs:99-111 | a status is digits behind at most one sign that make a 32-bit number |
| Shell.RunAll | crates/afos-core/src/shell.rs:84-138 | over any sequence of commands the current directory stays canonical, trust comes only from the boot table, and authorised calls and rightful password changes account for the whole trace and for all of storage; the limiter's record is exactly what the passwords typed since the start make of it, and nothing was done or changed on a refused one |
| Accounts.EveryEffectIsEntitled | crates/afos-core/src/system.rs:99-144 | whatever was done in a run, an application did that declared every request and came from the boot table or was granted each request, for that very effect, in the events that stand right before it, and storage changed as that effect does |
| Accounts.ShellConfined | crates/afos-core/src/shell.rs:84-138 | over any run of the shell storage changes only at or under authorised paths, application data and the password file, and above them only by new directories |
| Accounts.ShellKeepsRooted | crates/afos-core/src/vfs.rs:201-211 | over any run of the shell every path of storage begins with `apps` or `user` |
| Accounts.EveryPasswordChangeHasCause | docs/SECURITY.md:54-55 | every command of a run that changed what is in the password file's place came from who had just typed the password then in force, if there was one, or was an application called "..", or one that renamed "/user" or "/user/config" away, or something to them where there was nothing |
| Accounts.PasswordChangeHasCause | docs/SECURITY.md:54-55 | if it is not what it was at the start, the first command that changed it has such a cause, with the password in force from the start; every command before it left it alone |
| Accounts.AttemptsStayOnRecord | crates/afos-core/src/security.rs:55-94 | over any commands that neither give the right password nor set one, every attempt stays on record and each password typed adds one, whichever application or command asked |
| Accounts.WrongPasswordsAreSpaced | crates/afos-core/src/security.rs:55-94 | at any point of any run of the shell, the wrong passwords among those that its log holds since one last passed or was set are spaced as the limiter demands, whatever asked for them |
| PageTable.TranslationTables.MapDevicePage | platforms/bare-metal/src/arch.rs:354-411 | the level loop computes the insertion, or leaves memory alone when it cannot be located |
| PageTable.DevicePageMapped | platforms/bare-metal/src/arch.rs:376-412 | with live tables that form a tree apart from the reserved ones, the walk of the serial port's page ends in a page descriptor with attribute index 2, access permissions 0, outer shareable, accessed, at 0x0900_0000, executable at neither level, and no other bit set |
| PageTable.IndicesSpell | platforms/bare-metal/src/arch.rs:378-383 | the four indices and the offset spell the low 48 bits of the address |
| PageTable.ResolvesIff | platforms/bare-metal/src/arch.rs:385-394 | a walk ends in a page or block exactly when table descriptors lead from the root to it, each giving the next table by its bits 47:12 |
| PageTable.SuppliedAt | platforms/bare-metal/src/arch.rs:395-401 | the first missing level is supplied by the reserved table of that level |
| PageTable.OthersUnchanged | platforms/bare-metal/src/arch.rs:385-402 | every other page, mapped or not, resolves as before when no block lies on the way |
| PageTable.OtherPagesKeptIff | platforms/bare-metal/src/arch.rs:385-402 | and exactly then |

## Left out

- The Rhai engine and its callbacks: an application appears as the sequence of calls it makes and the result it ends with.
- Networking, VirtIO and PCI transports, the framebuffer, serial port and keyboard: hardware and foreign libraries.
- The desktop platform: its behaviour is the host file system's.
- Argon2, random salts and constant-time comparison: `derive` is any function of password and salt.
- Metadata parsing: `Header` is whatever a given parser returns; the identifiers it admits are stated as `IsId`.
- MAIR, TLB maintenance and barriers in `map_device_page`: only table contents and the walk are modelled; the tables' virtual aliases are taken to be their physical memory.
- `net_send`, `net_recv`, `net_close`, `net_status` and socket ownership: single membership tests.
- `initialize` and the first-run prompt: a fixed sequence of operations that are modelled.
- Console output and error message texts.
- Protocol.FaultTolerance: says that a tree found after a device failure matches an attempted save in length and checksum, not that it is that save's tree, because the checksum can collide.
