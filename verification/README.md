# Kitrove: acceptance, capture and release, verified

Kitrove reads trees and archives it does not trust and accepts only an exact, bounded, canonical form of them.
This project models the code that decides what is accepted and proves what its acceptance means. The code that
works step by step is modelled by methods with loops and by classes whose fields those methods update; each is
proved against a specification function, and the lemmas are about that function.

* **Archives.** `XzVli`, `XzFormat`, `XzParse` and `XzPreflight` are the hand-written preflight of XZ streams;
  `TarFormat`, `TarParse` and `TarPreflight` that of TAR streams, with the bounded decompression before it. Both
  accept exactly the assembled form, in one way only. `MemberNames` and `Members` are the member-set check by sort
  and bisection, `SafeNames` what a safe name and one destination are. `ArchiveFile` is the file whose position moves.
* **Trees.** `Capture` says what a bounded capture makes of each path and which trees it accepts; `CaptureLoop` is
  the worklist that computes it for any order in which directories list their entries. `InventoryCheck` is exact
  inventory verification, `MeteredCapture`, `BoundedRead` and `CaptureBudget` the reading under a budget,
  `MeteredTraversal` that reading over a whole traversal, `Walk` and `WalkMeter` the metadata-only walk with a
  visitor. `Portable`, `Collisions` and `StoredTrees` are portable names, the collision registry and stored trees,
  `PortableNames` which names every platform takes; `Frames` the length-framed preimages of every content hash.
* **Documents.** `Yaml` and `YamlDecoder` are the frontmatter decoder with its shared node budget, `YamlMeaning` what its
  values and refusals say of a document, `SkillDocuments` and `LineEndings` the splitter and the renderer,
  `SkillReader` the reader of whole documents, `Manifests` the strict manifest and what its printed fields are read as,
  `ManifestMeaning` what a manifest takes from the frontmatter, `Projection` the portable projection and the reading
  back of its own bytes, `Agents` agent instructions and stored agents.
* **Release.** `Provenance` is the closure over the resolved dependency graph; `ProcessGroup` and `RunOwned` the
  ownership of a process group against an adversary that chooses every answer of the system; `OwnerEvidence` and
  `ValidationEvidence` the acceptors of its traces; `DistManifest`, `ReleaseFiles` and `PrepareRelease` the rewrite of
  three held files while others rename, and `ReleaseNames` where the names of those files lead afterwards.

File systems are finite trees or name tables, system calls are arbitrary answers, and hash functions, Unicode case
folding, YAML and JSON libraries and the release tools are function parameters. Hash properties are stated on the
preimages; a library's round trip is assumed only where a lemma's `requires` names it.

Some statements one would expect of the code are false, and are proved in their exact form:

* A projected document is *not* always readable again: projecting counts neither nodes nor bytes. It is read back,
  as the same manifest and body, exactly when its printed manifest has at most 4096 nodes and the document at most
  4 MiB (`Projection.ReadBackExactly`, `Projection.ProjectingAgain`). 2046 metadata entries are 4095 nodes, which can
  be read, and 4099 once projected, which cannot (`Projection.ProjectionOutgrowsReader`); a body of 4 MiB can be read,
  and not once projected (`Projection.BodyOutgrowsReader`).
* A walked directory is *not* always charged whole or not at all: a walk whose visitor answers `Stop` at the first
  of the root's two entries has charged one (`Walk.StoppingChargesPart`). A directory is charged whole exactly when no
  name but its last stops the walk (`Walk.ChargedWhole`).
* An accepted validation record without attempts has no reserve in its budget
  (`ValidationEvidence.NoAttemptsNoReserve`); the bound holds of all accepted records with n attempts exactly when n
  is positive (`ValidationEvidence.ReserveHolds`).
* Equal files in admitted directories are *not* enough for exact inventory verification, which also compares the
  recorded identity of the expected tree: such a tree is verified exactly when that identity is the hash of those
  files (`InventoryCheck.IdentityDecides`).
* Loading a stored agent undoes storing it only if the reader's instruction limit admits the instructions
  (`Agents.StoredAgentRoundTrip`).
* When a release has been prepared, its names need *not* lead to the prepared files: someone may rename a file after
  its last check, or the manifest's directory after that was seen, and the preparation succeeds all the same
  (`ReleaseNames.RenamedAfterItsCheck`). That every successful preparation whose others leave a file's names
  alone from their last check to step n ends with them leading to the file is true exactly when n takes in all of its
  57 steps (`ReleaseNames.NamesHold`).

`dafny verify dfyconfig.toml` checks the whole project.

## Model

| member | source | states |
|---|---|---|
| `ArchiveFile.ByteFile.Read` | scripts/verify_release_archives.py:612-619 | a read gives the bytes from the position on, possibly fewer at the end, and moves the position by as many |
| `ArchiveFile.ByteFile.ReadExact` | scripts/verify_release_archives.py:612-619 | all the bytes asked for, or a truncation error when the file does not hold them |
| `XzVli.EncodedIsRead` | scripts/verify_release_archives.py:498-510 | the minimal encoding of a value below 2^63, followed by anything, decodes to that value and its length (section 1.2 of The .xz File Format) |
| `XzVli.ReadIsEncoded` | scripts/verify_release_archives.py:498-510 | whatever decodes is the minimal encoding of the value returned |
| `XzVli.ReadVliExactly` | scripts/verify_release_archives.py:498-510 | decoding accepts exactly the minimal encodings of values below 2^63, with that value and end |
| `XzVli.ReadXzVli` | scripts/verify_release_archives.py:498-510 | the shift-and-add loop computes that decoding, errors included |
| `XzPreflight.DictionaryGrows` | scripts/verify_release_archives.py:571-576 | dictionary size is strictly increasing in the property on 0 to 40 (section 5.3.1 of The .xz File Format) |
| `XzPreflight.DictionaryLimitProperty` | scripts/verify_release_archives.py:555-560 | so the 64 MiB limit admits exactly the properties up to its own |
| `XzParse.ChunksExactly` | scripts/verify_release_archives.py:513-568 | chunk reading succeeds with a chunk list exactly when those chunks tile the payload and the one end marker is its last byte |
| `XzParse.FiltersExactly` | scripts/verify_release_archives.py:533-562 | filter reading succeeds with a list exactly when its encoding stands there and the last filter is LZMA2 within the limit |
| `XzParse.HeaderExactly` | scripts/verify_release_archives.py:513-562 | a block header is accepted exactly when it is the encoding of a well-formed header of its recorded size |
| `XzParse.CoreExactly` | scripts/verify_release_archives.py:513-568 | a block is accepted exactly when header and chunks fill the size its index record announces |
| `XzParse.RecordsSound` | scripts/verify_release_archives.py:478-492 | accepted index records describe blocks that stand one after the other, rounded up to four bytes, from byte 12 |
| `XzParse.RecordsComplete` | scripts/verify_release_archives.py:478-492 | records of blocks that stand there are read back |
| `XzParse.IndexSound` | scripts/verify_release_archives.py:470-495 | an accepted index is the encoding of its records, and their blocks end where it begins |
| `XzParse.IndexComplete` | scripts/verify_release_archives.py:470-495 | the index of a well-formed stream is accepted |
| `XzParse.StreamExactly` | scripts/verify_release_archives.py:457-495 | a stream is read as a structure exactly when it is that structure's bytes: no gap, overlap or hidden data |
| `XzPreflight.PreflightFilters` | scripts/verify_release_archives.py:533-562 | the filter loop computes the specification's end of the filter list, or its error |
| `XzPreflight.PreflightChunks` | scripts/verify_release_archives.py:527-568 | the chunk loop, reading and seeking, ends exactly as the specification does |
| `XzPreflight.PreflightXzBlock` | scripts/verify_release_archives.py:513-568 | the block check ends as the specification of a block does, errors included |
| `XzPreflight.PreflightXz` | scripts/verify_release_archives.py:457-495 | the preflight ends as reading the stream's structure does, errors included |
| `XzPreflight.PreflightXzExactly` | scripts/verify_release_archives.py:457-495 | the preflight accepts a file exactly when it is the bytes of some well-formed stream within the limits |
| `XzPreflight.StreamUnique` | scripts/verify_release_archives.py:457-495 | no file is the bytes of two well-formed streams |
| `TarFormat.NumberExactly` | scripts/verify_release_archives.py:596-609 | a number field is accepted with a value exactly when it is spaces, octal digits and spaces or NULs of that value, in the canonical form if asked |
| `TarFormat.NumberWritten` | scripts/verify_release_archives.py:596-609 | a number field is read as a value exactly when that value is written there: spaces, its digits in base 8, then spaces and NULs, with at least one digit in canonical form |
| `TarFormat.HeaderExactly` | scripts/verify_release_archives.py:662-683 | a header is accepted with a size exactly when, of the fields it is the concatenation of, the type is a listed one, the size field writes that size within its type's limit and, if strict, the type is ordinary, the magic one of two, the mode a number, and the checksum field writes the sum of all bytes with eight spaces for itself |
| `TarFormat.ChargeAllIs` | scripts/verify_release_archives.py:659-694 | what a member list is charged is its count, the sum of its sizes and the sum of its extension records' sizes |
| `TarFormat.ArchiveFits` | scripts/verify_release_archives.py:101-114 | every member list within the limits, with its minimal end marker, fits the bound on the decompressed stream |
| `TarParse.ArchiveSound` | scripts/verify_release_archives.py:642-696 | an accepted stream is its members' headers, each made of fields that announce its payload's size, payloads and zero padding, then the zero end; counts and sums of sizes are within the limits |
| `TarParse.ArchiveComplete` | scripts/verify_release_archives.py:642-696 | every such stream is accepted |
| `TarParse.ArchiveExactly` | scripts/verify_release_archives.py:642-696 | both together: accepted with a structure exactly when it is that structure's bytes |
| `TarParse.ArchiveUnique` | scripts/verify_release_archives.py:642-696 | the decomposition is unique |
| `TarPreflight.DiscardExact` | scripts/verify_release_archives.py:622-628 | skips exactly this many bytes or reports truncation |
| `TarPreflight.DiscardZeroes` | scripts/verify_release_archives.py:631-639 | skips exactly this many bytes, all zero, or says which failed |
| `TarPreflight.RequireZeroRest` | scripts/verify_release_archives.py:649-655 | accepts exactly when everything to the end of the file is zero |
| `TarPreflight.PreflightTar` | scripts/verify_release_archives.py:642-696 | the member walk ends as the specification does, errors included |
| `TarPreflight.PreflightTarExactly` | scripts/verify_release_archives.py:642-696 | it accepts exactly the streams of members whose header fields announce their sizes, two zero blocks and zeros, within the limits |
| `TarPreflight.Output.WriteBounded` | scripts/verify_release_archives.py:427-432 | writes a chunk whole if the total stays within the bound, else nothing |
| `TarPreflight.Decompress` | scripts/verify_release_archives.py:435-454 | succeeds exactly when the decoder's output stays within the bound, its stream ends and no compressed data follows; otherwise it says which failed, the bound first; at most the bound is ever written, and nothing but the output in order |
| `Lexicographic.PrefixInterval` | scripts/verify_release_archives.py:360-370 | keys with a common prefix form an interval of the byte order that starts at the prefix |
| `Lexicographic.LessExactly` | scripts/verify_release_archives.py:360-370 | a key is below another exactly when, where they first differ, it ends or has the smaller byte |
| `MemberNames.SafePartsArePath` | scripts/verify_release_archives.py:289-320 | an accepted member name is a path of nonempty components without slashes, and its folded form likewise |
| `SafeNames.SafeExactly` | scripts/verify_release_archives.py:289-320 | a member name is accepted, as these components, exactly when it is at most 4096 characters long and is them between slashes, with one more slash at a directory's end, and each is 1 to 255 printable ASCII characters but the forbidden ones, ends in neither dot nor space, and is no device's name in any case, whatever follows its first dot |
| `SafeNames.OneDestination` | scripts/verify_release_archives.py:273-275 | two lists of components fold alike exactly when they differ in the case of ASCII letters alone |
| `Members.BisectLeft` | scripts/verify_release_archives.py:360-370 | the position where keys stop being below the given one |
| `Members.FirstCandidateDecides` | scripts/verify_release_archives.py:360-370 | some destination starts with the prefix exactly when the one found by bisection does |
| `Members.ValidateEntries` | scripts/verify_release_archives.py:323-372 | the loop, the sort and the bisections end as the specification does, errors included |
| `Members.FindsConflict` | scripts/verify_release_archives.py:360-370 | sorting once and bisecting for each file finds a conflict exactly when some key starts with a file's key and a slash |
| `Members.AdmitAllExactly` | scripts/verify_release_archives.py:323-358 | the loop admits exactly the well-formed lists with distinct folded paths within the count and size limits |
| `Members.ConflictExactly` | scripts/verify_release_archives.py:360-370 | the key-prefix conflict is that some file is a proper ancestor of another entry |
| `Members.ValidateExactly` | scripts/verify_release_archives.py:323-372 | the check accepts exactly the lists of at most 10000 entries, files or empty directories, unencrypted and within the size limits, with safe names no two of which differ in case alone and none of which lies below a file's, one of them a file's |
| `Trees.ItemsInjective` | crates/kitrove-agent-skills/src/tree.rs:373-389 | the ordered entries of a file map determine the map |
| `Frames.BigEndianInjective` | crates/kitrove-agent-skills/src/tree.rs:373-389 | an eight-byte big-endian length determines the length |
| `Frames.BigEndianAt` | crates/kitrove-agent-skills/src/tree.rs:373-389 | its bytes are the number's digits in base 256, the most significant first |
| `Frames.RecordSplits` | crates/kitrove-adapter-api/src/identity.rs:225-228 | a length-framed record, whatever follows, determines the value and what follows |
| `Frames.OptionalSplits` | crates/kitrove-adapter-api/src/identity.rs:230-238 | so does an optional record |
| `Frames.KindsApart` | crates/kitrove-agent-skills/src/source.rs:187-215 | frames of different domains never coincide; frames of one domain determine their bodies |
| `Frames.TreeFrameInjective` | crates/kitrove-agent-skills/src/tree.rs:373-389 | the tree preimage determines paths, modes and bytes of every file |
| `Frames.SourceFrameInjective` | crates/kitrove-agent-skills/src/source.rs:187-215 | the skill-source preimage determines layout, document name and files |
| `Frames.ObjectFrameInjective` | crates/kitrove-agent-skills/src/native_object.rs:201-223 | the native-object preimage determines layout, document name, native identifier and tree hash |
| `Frames.ObservationFrameInjective` | crates/kitrove-adapter-api/src/identity.rs:181-238 | the observation preimage determines every identity field, the optional ones included |
| `Frames.AgentFrameInjective` | crates/kitrove-agents/src/lib.rs:267-291 | the agent preimage determines name, description and instructions |
| `Frames.HashTree` | crates/kitrove-agent-skills/src/tree.rs:373-389 | the hashing loop absorbs exactly the tree frame |
| `Frames.HashSkillSource` | crates/kitrove-agent-skills/src/source.rs:187-215 | absorbs exactly the source frame |
| `Frames.HashNativeObject` | crates/kitrove-agent-skills/src/native_object.rs:201-223 | absorbs exactly the object frame |
| `Frames.FrameObservation` | crates/kitrove-adapter-api/src/identity.rs:181-238 | pushes exactly the observation frame |
| `Frames.HashAgent` | crates/kitrove-agents/src/lib.rs:267-291 | absorbs exactly the agent frame |
| `Collisions.RegisterExactly` | crates/kitrove-agent-skills/src/tree.rs:623-644 | a registry fed with keys refuses a key exactly when some distinct key folds alike |
| `Collisions.SplitJoin` | crates/kitrove-agent-skills/src/tree.rs:657-783 | the slash-joined key of a path determines the path |
| `Collisions.RegisterPrefixes` | crates/kitrove-agent-skills/src/tree.rs:1304-1325 | registering every prefix of a path fails exactly when one of them collides |
| `Collisions.HasPathCollision` | crates/kitrove-agent-skills/src/tree.rs:1304-1325 | reports a collision exactly when two distinct path prefixes share a folded key |
| `Collisions.PrefixKeysAre` | crates/kitrove-agent-skills/src/tree.rs:1304-1325 | those prefixes are the paths themselves and what comes before each of their slashes |
| `PortableNames.PortableExactly` | crates/kitrove-agent-skills/src/tree.rs:1259-1287 | a name is portable exactly when it is nonempty, ends in neither dot nor space, holds no separator, forbidden or control character, and is no device's name in any case, whatever follows its first dot |
| `PortableNames.CaseBlind` | crates/kitrove-agent-skills/src/tree.rs:1259-1287 | whether a name is portable does not depend on the case of its ASCII letters |
| `FileTree.ParentFirst` | crates/kitrove-agent-skills/src/tree.rs:657-783 | a directory's key is below the keys of its entries |
| `FileTree.EnqueueMore` | crates/kitrove-agent-skills/src/tree.rs:785-839 | visiting a path enqueues exactly its children, each once |
| `Capture.VisitExactly` | crates/kitrove-agent-skills/src/tree.rs:657-783 | one visit succeeds exactly when its path is readable with a name every platform takes, collides with nothing and its share fits; then it has taken that share |
| `Capture.VisitAllExactly` | crates/kitrove-agent-skills/src/tree.rs:657-783 | a run succeeds exactly when everything ahead of it is admitted, free of collisions and fits together; then it has taken all of it |
| `Capture.TotalAhead` | crates/kitrove-agent-skills/src/tree.rs:785-839 | what a whole run charges is the tree's files, directories and entries, each once |
| `Capture.CaptureTreeExactly` | crates/kitrove-agent-skills/src/tree.rs:657-839 | a capture succeeds exactly on the accepted trees, a condition without order or running total, and yields exactly their flattening |
| `DirectoryEntries.CollectBoundedEntries` | crates/kitrove-agent-skills/src/directory_entries.rs:37-54 | takes at most one entry more than the allowance; fails with the first unreadable entry among those, and otherwise overflows exactly when the listing is longer |
| `DirectoryEntries.CollectBoundedSorted` | crates/kitrove-agent-skills/src/directory_entries.rs:15-35 | the whole listing in byte order, nothing when it is too long, or the first unreadable entry met before that was known |
| `CaptureLoop.NextKey` | crates/kitrove-agent-skills/src/tree.rs:657-783 | the least pending key is the next key of the tree's byte order |
| `CaptureLoop.PendingNext` | crates/kitrove-agent-skills/src/tree.rs:657-839 | so keys are popped in strictly increasing order, and inserting a directory's entries overwrites no pending key |
| `CaptureLoop.CaptureState.RegisterPortablePath` | crates/kitrove-agent-skills/src/tree.rs:623-644 | registers the key or refuses it and changes nothing |
| `CaptureLoop.EnqueueDirectoryEntries` | crates/kitrove-agent-skills/src/tree.rs:785-839 | adds exactly the children's entries and charges them, or refuses, whatever the listing's order |
| `CaptureLoop.VisitEntry` | crates/kitrove-agent-skills/src/tree.rs:672-783 | one turn of the loop does what the specification's visit does, errors and their paths included |
| `CaptureLoop.CaptureDirectories` | crates/kitrove-agent-skills/src/tree.rs:657-839 | the worklist terminates and gives the specification's result, or its error at its path, for every order of every listing |
| `InventoryCheck.CollectPrefixes` | crates/kitrove-agent-skills/src/tree.rs:143-155 | the loop over the slashes of each path collects exactly the slash prefixes |
| `InventoryCheck.CollectDirectories` | crates/kitrove-agent-skills/src/tree.rs:143-155 | the loops collect exactly the slash prefixes of files and empty directories, and the latter |
| `InventoryCheck.SlashPrefixesAreAncestors` | crates/kitrove-agent-skills/src/tree.rs:143-155 | the slash prefixes of a key are the keys of its proper ancestors |
| `InventoryCheck.AdmittedDirectoriesMean` | crates/kitrove-agent-skills/src/tree.rs:143-155 | a directory is admitted exactly when it is an ancestor of an expected file, an empty directory or an ancestor of one |
| `InventoryCheck.BudgetSuffices` | crates/kitrove-agent-skills/src/tree.rs:156-156 | the budget of files and directories never rejects a conforming tree |
| `InventoryCheck.VerifyTreeExactly` | crates/kitrove-agent-skills/src/tree.rs:135-199 | verification succeeds exactly on capturable trees with the expected files and identity and only admitted directories |
| `InventoryCheck.IdentityDecides` | crates/kitrove-agent-skills/src/tree.rs:157-172 | a capturable tree of exactly the expected files in admitted directories is verified exactly when the recorded identity is the hash of those files |
| `StoredTrees.FromMetadataExactly` | crates/kitrove-agent-skills/src/stored_tree.rs:107-148 | metadata and payload restore a tree exactly when their keys agree, there is no collision and the hashes match; the result has the metadata's modes and the payload's bytes |
| `StoredTrees.StoredRoundTrip` | crates/kitrove-agent-skills/src/stored_tree.rs:33-148 | a stored tree's metadata restores it exactly, whatever modes the payload carries |
| `StoredTrees.ObjectRoundTrip` | crates/kitrove-agent-skills/src/native_object.rs:39-120 | a native object's metadata and tree restore the object |
| `StoredTrees.NewStoredExactly` | crates/kitrove-agent-skills/src/stored_tree.rs:33-55 | a tree is stored exactly when no two different paths, of files or of what stands above them, fold alike, its hash is that of its frame and its metadata is at most 4 MiB; otherwise the first of these that fails is told |
| `StoredTrees.NewObjectExactly` | crates/kitrove-agent-skills/src/native_object.rs:39-74 | an object is made exactly of a tree that can be stored, one of whose files is the document, named by one component, an identifier of 1 to 256 bytes without control characters and, when standalone, a single file; its hash is that of its frame |
| `StorableCaptures.PrefixesStand` | crates/kitrove-agent-skills/src/tree.rs:1304-1325 | every prefix of a captured file's path is the key of a path of the tree |
| `StorableCaptures.CaptureIsStorable` | crates/kitrove-agent-skills/src/stored_tree.rs:33-56 | every successfully captured tree passes the stored-tree collision check |
| `CaptureBudget.ScanBudget.TryFileAttempt` | crates/kitrove-core/src/limits.rs:37-40 | grants an attempt exactly while some are left, and counts it |
| `CaptureBudget.ScanBudget.TryChargeBytes` | crates/kitrove-core/src/limits.rs:46-53 | charges exactly the bytes if they fit, else nothing |
| `BoundedRead.ReadBounded` | crates/kitrove-agent-skills/src/tree.rs:1227-1257 | for every reader: the result is what the answers deliver under the budget; bytes charged equal bytes consumed on every path, no request exceeds what remains, and each error says what happened |
| `MeteredCapture.FileStore.CaptureFile` | crates/kitrove-agent-skills/src/tree.rs:948-1035 | a file is captured exactly when it is sound by itself and the limits, the budget and two attempts allow it; it is stored whole, as delivered, or nothing is, and what was read is charged either way |
| `MeteredCapture.CaptureAll` | crates/kitrove-agent-skills/src/tree.rs:567-591 | a whole capture succeeds exactly when every file is sound and all together fit the limits and the budget, a condition without order or running total; then the total is the sum of stored lengths and of the bytes charged |
| `MeteredTraversal.CaptureTraversal` | crates/kitrove-agent-skills/src/tree.rs:948-1035 | reading the files of a tree in traversal order succeeds exactly when the whole tree fits limits and budget; then every file is stored as delivered, and the meter is charged exactly the tree's bytes, which is the traversal's own total, and two attempts a file; a failure has charged all that is stored |
| `MeteredTraversal.StoresTheCapture` | crates/kitrove-agent-skills/src/tree.rs:567-591 | when the files deliver what the tree holds, what that traversal stores and charges is the files and the total of the worklist's capture |
| `WalkMeter.LocalRootHookMeter.TryDiscoveryEntry` | crates/kitrove-adapter-api/src/policy.rs:351-358 | grants and counts an entry exactly while some remain |
| `Walk.ReportedChain` | crates/kitrove-agent-skills/src/tree.rs:441-516 | a directory that may be shown lies at depth 1 to the maximum, beneath directories all shown and all answered with Continue |
| `Walk.ClassifyExactly` | crates/kitrove-agent-skills/src/tree.rs:441-500 | an entry is unsafe exactly when its name is not UTF-8 or, once inspected, it is a link, reparse point or special file, or a directory within the depth that cannot be opened or is replaced; and likewise for unreadable, too deep, plain and reportable ones |
| `Walk.ChargedWhole` | crates/kitrove-agent-skills/src/tree.rs:441-516 | a listed directory is charged whole exactly when none of its names but the last stops the walk |
| `Walk.StoppingChargesPart` | crates/kitrove-agent-skills/src/tree.rs:500-514 | a walk of a root with two entries whose visitor stops at the first has charged one |
| `Walk.GoShows` | crates/kitrove-agent-skills/src/tree.rs:441-516 | going through a directory shows only its entries that are directories within the depth, inspected and opened as themselves, none twice, and all of them unless stopped |
| `Walk.GoNotes` | crates/kitrove-agent-skills/src/tree.rs:441-516 | each of the report's flags is set exactly when some entry of the whole directory shows that kind of trouble |
| `Walk.ProcessEntries` | crates/kitrove-agent-skills/src/tree.rs:441-516 | the entry loop shows, charges, notes and enqueues what the specification says, up to where it stops |
| `Walk.NothingLeft` | crates/kitrove-agent-skills/src/tree.rs:412-516 | when nothing is pending, every directory that was to be entered has been |
| `Walk.Complete` | crates/kitrove-agent-skills/src/tree.rs:412-516 | and then every directory the visitor may see has been shown |
| `Walk.WalkDirectory` | crates/kitrove-agent-skills/src/tree.rs:427-516 | one turn of the walk keeps what is shown, charged, pending and reported a function of the directories processed, and leaves the walk's end as it was to be, or ends it |
| `Walk.WalkDirectories` | crates/kitrove-agent-skills/src/tree.rs:396-522 | the walk terminates, shows each directory at most once and only those reachable through Continue, and never charges more than its allowance; it has processed every directory it may enter and shown all there is, or says why it ended early; calls, report and charge are the same for every listing order |
| `Yaml.CountExactly` | crates/kitrove-agent-skills/src/frontmatter.rs:260-284 | reading a value succeeds exactly when it is strict and fits depth and node limits, and a limit is only reported when exceeded |
| `Yaml.DocumentExactly` | crates/kitrove-agent-skills/src/frontmatter.rs:286-301 | a document is accepted exactly when it is a mapping of at most 4096 nodes and 64 levels with only string keys, none twice in a mapping; the count is then its size |
| `Yaml.DocumentAliases` | crates/kitrove-agent-skills/src/frontmatter.rs:269-280 | the alias scanner's answer only renames an exhausted node budget, and never decides acceptance |
| `Yaml.LosesNothing` | crates/kitrove-agent-skills/src/frontmatter.rs:639-694 | two accepted values decode alike exactly when they are the same up to the order of mapping entries |
| `YamlMeaning.DenotesExactly` | crates/kitrove-agent-skills/src/frontmatter.rs:553-694 | a strict tree decodes to a value exactly when the value says what the tree does: the same scalar, the elements in order, or for each key, and no other, its value |
| `YamlMeaning.FailureHas` | crates/kitrove-agent-skills/src/frontmatter.rs:379-420 | a failure that is no limit's is one the tree has: a repeated or a non-string key of the top level, of its metadata, or of some mapping |
| `YamlDecoder.YamlBudget.Claim` | crates/kitrove-agent-skills/src/frontmatter.rs:260-284 | counts a node within both limits, or records which was exceeded |
| `YamlDecoder.YamlBudget.ReadString` | crates/kitrove-agent-skills/src/frontmatter.rs:477-516 | a key is claimed first and then must be a string |
| `YamlDecoder.YamlBudget.ReadBounded` | crates/kitrove-agent-skills/src/frontmatter.rs:518-705 | reading a value leaves the counter and failure cell the specification gives, and yields its whole decoded value |
| `YamlDecoder.YamlBudget.VisitSequence` | crates/kitrove-agent-skills/src/frontmatter.rs:639-652 | the element loop yields the decoded elements in order |
| `YamlDecoder.YamlBudget.VisitMapping` | crates/kitrove-agent-skills/src/frontmatter.rs:654-694 | the entry loop yields the decoded mapping, or reports a bad or repeated key as its place demands |
| `YamlDecoder.VisitFrontmatter` | crates/kitrove-agent-skills/src/frontmatter.rs:379-444 | the top-level loop yields the whole mapping and its native fields, with the top level's own failures |
| `YamlDecoder.ParseFrontmatter` | crates/kitrove-agent-skills/src/frontmatter.rs:286-348 | accepts exactly the documents above, with the counter at their size and their value; otherwise the code of the first failure, which tells what the document has: too many nodes or levels, or a repeated or odd key where the code says |
| `LineEndings.NormalizedBodyHolds` | crates/kitrove-agent-skills/src/projection.rs:188-193 | normalising a body removes every CR, and normalising again changes nothing |
| `LineEndings.BreakBecomesLf` | crates/kitrove-agent-skills/src/projection.rs:188-188 | every CR LF, and every LF or CR that is not half of one, becomes one LF, and what stands around it is replaced by itself |
| `LineEndings.UnixKeeps` | crates/kitrove-agent-skills/src/projection.rs:188-188 | and text without a CR stays as it is |
| `LineEndings.LastLineDecides` | crates/kitrove-agent-skills/src/projection.rs:188-193 | a normalised body is those lines up to the last one that is not empty, ended by one LF, or nothing if there is none |
| `SkillDocuments.SplitFrontmatter` | crates/kitrove-agent-skills/src/frontmatter.rs:190-235 | splits at the first closing delimiter line, and fails exactly when there is none |
| `SkillDocuments.ProjectDocument` | crates/kitrove-agent-skills/src/projection.rs:162-195 | renders the printed manifest between delimiters, then the normalised body |
| `SkillDocuments.ClosingOfDocument` | crates/kitrove-agent-skills/src/frontmatter.rs:190-235 | the closing delimiter of a rendered document is the rendered one |
| `SkillDocuments.SplittingUndoesProjection` | crates/kitrove-agent-skills/src/projection.rs:162-195 | splitting gives back the printed manifest and the normalised body, and rendering those again changes nothing |
| `SkillReader.ParseObservedSkillDocument` | crates/kitrove-agent-skills/src/frontmatter.rs:135-188 | reads a document's bytes as frontmatter and body, or as a body alone, with the size, encoding, splitting and decoding failures in their order |
| `Manifests.PrintedSize` | crates/kitrove-agent-skills/src/frontmatter.rs:260-284 | every tree with the value of a manifest's fields has one node, two for each string field, and two for the metadata and each of its entries |
| `Manifests.ProjectedManifestAgain` | crates/kitrove-agent-skills/src/projection.rs:86-160 | what a projected manifest's fields are read as passes the strict parser and a second projection as that same manifest |
| `ManifestMeaning.StandardNameExactly` | crates/kitrove-agent-skills/src/frontmatter.rs:981-991 | a standard name is at most 64 characters of words in lower-case letters and digits with single hyphens between them |
| `ManifestMeaning.ProjectedExactly` | crates/kitrove-agent-skills/src/projection.rs:86-160 | the projected manifest has the given name and description and says of license, compatibility, metadata and allowed tools what the frontmatter does, within their limits and without a secret key; there is none exactly when no manifest does, and the code tells what is wrong |
| `ManifestMeaning.ParsedExactly` | crates/kitrove-agent-skills/src/frontmatter.rs:37-133 | strict reading gives the manifest that says all of this and whose name, an asset identifier, and description the frontmatter has too |
| `Projection.ParseSkillDocument` | crates/kitrove-agent-skills/src/frontmatter.rs:37-133 | strict parsing of a document's bytes to its manifest and body, or the first check that fails |
| `Projection.ReadBackExactly` | crates/kitrove-agent-skills/src/projection.rs:162-195 | a rendered document is read back, as its manifest's fields and normalised body, exactly within 4096 nodes and 4 MiB, and otherwise refused with the code of the limit exceeded |
| `Projection.ProjectionOutgrowsReader` | crates/kitrove-agent-skills/src/projection.rs:86-160 | a readable document of 4095 nodes whose projected manifest has 4099 |
| `Projection.BodyOutgrowsReader` | crates/kitrove-agent-skills/src/projection.rs:162-195 | a readable document of 4 MiB that is too long once rendered with any frontmatter |
| `Projection.ProjectSkillSource` | crates/kitrove-agent-skills/src/projection.rs:42-84 | the resulting tree with its content hash, manifest, body and reasons, and when projection is refused; the manifest carries the frontmatter's fields, and a refusal's code tells what is wrong with them |
| `Projection.ProjectedFilesHold` | crates/kitrove-agent-skills/src/projection.rs:52-68 | every file but the principal document is carried over, which becomes SKILL.md with its mode |
| `Projection.ProjectingAgain` | crates/kitrove-agent-skills/src/projection.rs:42-195 | for every printer and reader that round-trip the printed fields: the projected document is readable, and parses strictly, exactly within the readers' limits; and projecting what is read changes neither manifest nor tree |
| `Agents.CanonicalParses` | crates/kitrove-agents/src/lib.rs:184-206 | accepted instructions parse to themselves, under exactly the limits they fit in |
| `Agents.InstructionsExactly` | crates/kitrove-agents/src/lib.rs:184-206 | instructions are accepted exactly when they are neither empty nor too long, hold neither a NUL nor a CR without its LF, and their lines up to the last one that is not empty, each ended by LF, are neither blank nor too long; those are kept |
| `Agents.StoredAgentRoundTrip` | crates/kitrove-agents/src/stored.rs:39-103 | loading undoes storing exactly when the reader's limit admits the instructions |
| `Agents.AcceptedIsStored` | crates/kitrove-agents/src/stored.rs:39-78 | an accepted envelope is field by field the one its agent is stored as |
| `Agents.ObjectHashBinds` | crates/kitrove-agents/src/stored.rs:131-140 | two different agents with one object hash are a collision of the digest on their frames or on their stored preimages |
| `Provenance.NamedIsFound` | xtask/src/main.rs:983-986 | every identifier with a name has a package to be found |
| `Provenance.NameTableExactly` | xtask/src/main.rs:913-925 | there is a table of names exactly when every package has identifier and name, and it has for each identifier the name of its last package |
| `Provenance.NodeTableExactly` | xtask/src/main.rs:950-957 | there is a table of nodes exactly when every node has an identifier, and it has the last node of each |
| `Provenance.FindPackageExactly` | xtask/src/main.rs:989-995 | the package found is the first with the identifier, and none is found exactly when there is none |
| `Provenance.StartsExactly` | xtask/src/main.rs:930-949 | there is one identifier to start from exactly when one package only is a workspace member of the exact name and manifest path, and it is that one's |
| `Provenance.ClosedHolds` | xtask/src/main.rs:959-1007 | a set closed under dependencies contains everything reachable from inside it |
| `Provenance.PrepareExactly` | xtask/src/main.rs:909-957 | the closure starts from the metadata's own packages, these tables and that identifier; otherwise the error tells that a list, name or identifier is missing, or that no package or more than one is the exact one |
| `Provenance.Inspect` | xtask/src/main.rs:964-1002 | finds a package at fault exactly when it is a network client, lacks its metadata, or is a sigstore package with features or off the reviewed path, and says which |
| `Provenance.CheckClosure` | xtask/src/main.rs:959-1007 | the worklist terminates on every graph, cyclic ones included; it succeeds exactly when every reachable package is clean, having visited exactly those; a refusal names a reachable package at fault |
| `Provenance.CheckOfflineReleaseProvenanceGraph` | xtask/src/main.rs:908-1007 | the same for the whole check, over the tables of the last name and node of each identifier and from the one exact workspace package; without these it fails as `PrepareExactly` says |
| `ProcessGroup.TraceMore` | scripts/hosted_apple_process.py:96-138 | what one more event does to the last probe, the signals sent and the confirmation of a trace |
| `ProcessGroup.Probing` | scripts/hosted_apple_process.py:84-93 | a denied probe is remembered and proves neither presence nor absence; other failures are raised |
| `ProcessGroup.Signal` | scripts/hosted_apple_process.py:119-124 | a round opens with a probe, and its signal is sent, once, exactly when that found the group |
| `ProcessGroup.Poll` | scripts/hosted_apple_process.py:126-130 | the stop is over exactly when one poll saw the child reaped and the group absent |
| `ProcessGroup.Round` | scripts/hosted_apple_process.py:119-133 | one signal's round opens so, and ends confirmed, failed, or at its deadline, having polled at least once and read the clock twice, that duration apart |
| `ProcessGroup.StopProcessGroup` | scripts/hosted_apple_process.py:96-138 | against every adversary: success exactly when the last poll confirmed it; TERM before KILL, each at most once, and KILL only once TERM's time was up; it gives up only when both rounds ran out, each with its probe, its signal if that found the group, a poll and its whole duration, and says denied exactly when the last probe was |
| `OwnerEvidence.LinesExactly` | scripts/hosted_apple_owner.py:30-32 | the lines are the only ones the text can be cut into at LF, CR and CR LF, the last one without an end if it has something on it |
| `OwnerEvidence.CheckRecord` | scripts/hosted_apple_owner.py:33-49 | one marked line is accepted exactly when it carries the next record due |
| `OwnerEvidence.ValidateOwnerEvidence` | scripts/hosted_apple_owner.py:26-53 | accepted exactly when the marked lines are start 1, finish 1, to start n, finish n with n at most 8, positive on success; so the cap of 16 refuses no such trace |
| `RunOwned.CheckPendingCancellation` | scripts/hosted_apple_process.py:79-81 | the loop finds a cancelled scope exactly when there is one |
| `RunOwned.Collect` | scripts/hosted_apple_process.py:185-199 | a result is what the tool delivered last, its own output and return code; a timeout rests on a clock reading at or past the deadline, a failure on a failed communication, a cancellation on a signal, and before that the tool was still running in time; no other process is touched |
| `RunOwned.ConfirmNested` | scripts/hosted_apple_process.py:210-217 | a nested owner is confirmed exactly by a regular exit and accepted evidence |
| `RunOwned.CollectThenStop` | scripts/hosted_apple_process.py:184-208 | a started process is always stopped, and an unconfirmed stop replaces what collecting ended with, which is handed on otherwise, with what was drained after the stop |
| `RunOwned.WithinScope` | scripts/hosted_apple_process.py:43-81 | a result leaves the scope only if no signal came before it was left; what ends a run is what collecting ended with, or a signal, an account that does not hold, or a deadline passed since |
| `RunOwned.Execute` | scripts/hosted_apple_process.py:166-234 | a result is what the last communication delivered, and means one start, a confirmed stop, no cancellation and, when nested, confirmed evidence; any failure after a start that is not a cleanup failure means a confirmed stop too; and every ending is that of a run it explains, with the error output kept of it |
| `ValidationEvidence.StringLessExactly` | scripts/hosted_apple_validation_evidence.py:58-72 | a text sorts before another exactly when, where they first differ, it ends or has the smaller character |
| `ValidationEvidence.IsRetryable` | scripts/hosted_apple_validation_evidence.py:37-46 | the comparisons of sets of errors and observations say whether an attempt may be retried |
| `ValidationEvidence.RequireAttempt` | scripts/hosted_apple_validation_evidence.py:49-74 | the requirements on one attempt, one after the other, pass exactly when it is as it should be by itself |
| `ValidationEvidence.RequireRecord` | scripts/hosted_apple_validation_evidence.py:77-116 | the loop over the attempts and the requirements around it pass exactly the accepted records |
| `ValidationEvidence.StartsAfter` | scripts/hosted_apple_validation_evidence.py:91-101 | an attempt starts no earlier than the sum of the back-offs before it |
| `ValidationEvidence.Ordered` | scripts/hosted_apple_validation_evidence.py:98-101 | attempts lie one after the other with their back-off between, all but the last retryable |
| `ValidationEvidence.Timeline` | scripts/hosted_apple_validation_evidence.py:77-116 | an accepted timeline of n attempts has a budget of at least 20000 + 500 n (n - 1) ms, and 20000 + 500 n (n + 1) if another was planned |
| `ValidationEvidence.NoAttemptsNoReserve` | scripts/hosted_apple_validation_evidence.py:91-111 | a record without attempts is accepted with no budget at all |
| `ValidationEvidence.ReserveHolds` | scripts/hosted_apple_validation_evidence.py:91-111 | the bound holds of every accepted record with n attempts exactly when n is positive |
| `ValidationEvidence.ValidatedOnce` | scripts/hosted_apple_validation_evidence.py:104-107 | a validated ticket rests on exactly one success, the last attempt, with every cleanup confirmed |
| `DistManifest.ValidateDistManifest` | xtask/src/release_archive.rs:436-495 | accepts a manifest exactly when one artifact matches the archive and it binds the digest; returns that one |
| `DistManifest.IsMatch` | xtask/src/release_archive.rs:449-476 | the look at one artifact's name, kind, target and path says whether it is the archive's |
| `DistManifest.IsBound` | xtask/src/release_archive.rs:477-494 | the look at its checksum file and digest says whether it binds the digest |
| `DistManifest.ChecksumExactly` | xtask/src/release_archive.rs:406-425 | a checksum file is accepted exactly when it is the digest of the archive's bytes, a space, a star, the archive's name and an LF, or that and one more LF; the former is what is written |
| `DistManifest.SidecarNamesOne` | xtask/src/release_archive.rs:406-425 | a checksum file names one digest only, among digests of one length, so the bytes it is accepted with all have that digest |
| `DistManifest.SetAtOnly` | xtask/src/release_archive.rs:507-507 | replacing the value at a path changes nothing beside it and no key above it |
| `DistManifest.OnlyDigestChanges` | xtask/src/release_archive.rs:497-515 | rewriting a binding manifest changes that artifact's digest and no other value |
| `ReleaseFiles.FileSystem.WriteAll` | xtask/src/release_archive.rs:732-736 | a write changes only the held file, by all the bytes when it succeeds and by some prefix of them when it fails |
| `ReleaseFiles.FileSystem.SetLength` | xtask/src/release_archive.rs:732-736 | setting the length cuts or pads the held file alone, and a failure changes nothing |
| `ReleaseFiles.RetainedFile.Revalidate` | xtask/src/release_archive.rs:62-103 | success means that, one step after the other, directory, single link, content and name were still those of the held file; it succeeds when the file is intact and others spare it |
| `ReleaseFiles.ReadBoundedFile` | xtask/src/release_archive.rs:323-381 | a file is held exactly as its names led to it, regular, bounded, singly linked and read whole, each at its own step; and it is held when that is so and others spare it |
| `ReleaseFiles.IntactCarried` | xtask/src/release_archive.rs:62-103 | a file whose names others spare stays intact over any run of steps, this program's writes included |
| `ReleaseFiles.RecheckedLeads` | xtask/src/release_archive.rs:62-103 | a rechecked file's names lead to it at the end of every run whose others leave its directory and its entry alone since each was checked |
| `ReleaseFiles.WriteContent` | xtask/src/release_archive.rs:732-736 | writing, cutting and syncing change the held file alone, and on success make the bytes its whole content |
| `ReleaseFiles.ReplaceGeneratedFile` | xtask/src/release_archive.rs:720-741 | changes at most the held file's content; on success that is the new bytes, rechecked; it succeeds when the file is intact and spared |
| `PrepareRelease.RewriteDistManifest` | xtask/src/release_archive.rs:497-515 | on success the manifest held is the old value with the one new digest, rendered on a line of its own; it succeeds whenever the old manifest binds the old digest and the rendered one the new |
| `PrepareRelease.RewrittenReads` | xtask/src/release_archive.rs:497-515 | if the library reads what it renders, the written manifest reads as every old value except the digest |
| `PrepareRelease.OpenAll` | xtask/src/release_archive.rs:129-137 | twelve steps open the three files under their names with the contents then read, or fail; they succeed when the names lead to bounded files that others spare |
| `PrepareRelease.RevalidateAll` | xtask/src/release_archive.rs:181-183 | success means the last twelve steps rechecked the three files in turn; it succeeds when each is spared until its own recheck is over |
| `PrepareRelease.Build` | xtask/src/release_archive.rs:145-171 | builds exactly what the original's executable, the signer's answer, the manifest rendered for it and the archive written with both make, verified; it builds nothing exactly when any of these fails |
| `PrepareRelease.CheckAndBuild` | xtask/src/release_archive.rs:138-171 | the first check that fails is reported, checksum before manifest before building, and a new archive comes out only of files that agree: a sidecar that names the digest of the archive's bytes, and a manifest that binds it |
| `PrepareRelease.RewriteAll` | xtask/src/release_archive.rs:172-180 | the three rewrites change at most the three held files, and on success three different files hold the archive, a sidecar that names the digest of its bytes, and a manifest rewritten to bind that digest; they succeed when these are intact and spared |
| `PrepareRelease.PrepareWithSigner` | xtask/src/release_archive.rs:118-193 | whatever others rename: only the three files its first twelve steps opened by name are written, and those only when they agree and a new archive was built, so a failure up to and including signing changes no file; success leaves sidecar and manifest naming the digest of the archive's new bytes, the manifest being the one opened with one digest changed, and their names leading to them if left alone since their last checks; and it succeeds whenever the files agree, the tools do their part and others spare each file until its last check |
| `ReleaseNames.RenamedAfterItsCheck` | xtask/src/release_archive.rs:181-193 | for each file and each step short of the last, a preparation that succeeds, whose others leave the file's names alone from their last check to that step, and that ends with them leading elsewhere |
| `ReleaseNames.NamesStay` | xtask/src/release_archive.rs:181-193 | every successful preparation whose others leave a file's names alone from their last check to its end ends with them leading to the file |
| `ReleaseNames.NamesHold` | xtask/src/release_archive.rs:181-193 | so, for every file: names left alone from their last check to step n lead to it at the end of every successful preparation exactly when n is at least 57, its number of steps |

## Left out

- Compressed data: LZMA2 payloads, the sizes inside chunks, block padding contents and checks, and every CRC are bytes the preflight does not interpret, and neither does the model.
- Archive members: reading member contents, ZIP and gzip archives, binary and source shapes, and digests of archives.
- Member names: names are sequences of characters; names with lone surrogates, and Unicode normalisation, are not modelled, and case folding of member names is that of ASCII, since accepted names are ASCII.
- Limits policy: the archive limits are the constants of the shipped policy; reading and checking that policy file is not modelled.
- Integer widths: counters of the Rust code saturate at 2^64; the model's counters are unbounded, which differs only beyond that.
- Opening roots: resolving and opening the root of a capture or walk, standalone files, and the meter's other budgets.
- Listing errors: in the capture and walk, a directory whose listing fails part of the way counts as one that cannot be listed, also when the allowance would have ended the listing before the failure; `DirectoryEntries` itself has both.
- CaptureLoop: files are given to the loop as the tree holds them; `MeteredTraversal` reads them under the meter in the same order and stores the same files, but in a loop of its own.
- Hash functions: digests are functions of the preimage; nothing is proved about them but what a `requires` assumes.
- Stored metadata: parsing and printing stored JSON, and the limit on its size, are parameters.
- Yaml: what the YAML library makes of a text (syntax errors, tags, empty documents, its own limits) is not modelled; the decoder is given the tree of events with aliases expanded.
- Alias scanner: the text scan for alias references is a parameter, because its answer never decides acceptance.
- Projection: the list of secret-like metadata keys, and capturing the source that is projected.
- Agent names: the checks on agent names and descriptions; their texts are taken as given.
- Provenance: manifest paths are compared as sequences of components; running Cargo is not modelled.
- ProcessGroup: times are whole nanoseconds instead of floating-point seconds, and a sleep lasts at least as long as it was asked to.
- RunOwned: pipes, environments and the nested deadline passed in them; a nested deadline is checked on whole nanoseconds.
- ValidationEvidence.Timeline: records are typed values; the checks that JSON fields have their types, keys and literals are left out.
- PrepareRelease: reading, rebuilding and verifying an archive, rendering its manifest and the signer are parameters; the version, the compatibility catalogue and the final message are left out.
- ReleaseFiles: others rename, link, unlink and create; that they also write to a held file is not modelled, though each recheck compares the content.
- Release commands: verifying a release or bundle, hardening the PowerShell installer, argument and tag parsing.
- Command-line, network, Windows and GitHub tooling, native agent dialects, executable-risk heuristics, license and workflow checks: comparisons with constants or outside calls.
