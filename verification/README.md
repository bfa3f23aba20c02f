# EpixNet core: a Dafny model

This project models the parts of EpixNet where a fast, stateful or encoded form has to agree with a simple
mathematical object, and proves that it does.

* **The EDX blob store** (`crates/epix-blob`). `GroupBits` keeps the set of present 16 KiB groups as sorted runs and
  travels as run lengths (`GroupRuns`, `GroupBits`, `ChunkRanges`). Partial writes turn recorded extents into fully
  covered groups (`Coverage`). Sparse files are written, read, deleted, re-created and evicted by interleaving threads
  (`SparseStore`, `SparseProofs`, `SparseRecords`, `SparseRows`, `SparseWrites`, `SparseReads`, `SparseLinks`, and
  `SparseAlone` for what one call does when nothing runs beside it), with the interleavings that go wrong
  in `SparseRaces`. Small objects live in append-only slabs that any number of threads insert into, remove from and
  compact, and that are reopened after crashes (`SlabStore`, `SlabProofs`, `SlabReads`, `SlabSeals`, `SlabAccounts`, and
  `SlabRaces` for what goes wrong); `SlabOperations` has the same steps as methods run one at a time. Two byte bounds
  are enforced by LRU eviction (`Quota`, `QuotaFacts`).
* **Bundles and the manifest** (`bundle.rs`, `manifest.rs`). A stable packer carries memberships forward
  (`Bundle`, `BundleProofs`, `BundleFill`, `BundleAssign`); its result is written into a JSON manifest and read back at the next
  signing (`Manifest`, `ManifestProofs`, `ManifestFields`, `ManifestReads`, `ManifestOps`); a Merkle root commits to the files
  (`FilesMerkle`, `FilesMerkleForm`, `FilesMerkleOps`).
* **Serializers that must be unambiguous.** Bencode and the info-hash span (`Bencode`, `BencodeProofs`,
  `BencodeGrammar`, `BencodeErrors`, `BencodeCodec`, `Metainfo`), and the Python-compatible JSON text that signatures cover (`Unicode`, `KeyOrder`,
  `CanonicalJson`, `CanonicalProofs`, `CanonicalReader`, `CanonicalReadBack`, `CanonicalWriter`).
* **Verified streaming** (`crates/epix-bt`). A range server over a cache of verified pieces (`RangeHeader`,
  `TorrentLayout`, `Streaming`), fed by web seeds that serve single files (`WebSeed`) or by a swarm that splits a
  piece over several peers (`Swarm`).
* **Chain inclusion proofs** (`crates/epix-chain`): `ChainMerkle`.

`Prelude`, `Arithmetic`, `Lex`, `Sorting`, `MapSum`, `Decimal`, `Hex` and `Placement` hold what the components share.

## How the model reads the program

* An object id stands for its bytes: `content: ObjId -> seq<byte>` is a ghost parameter, and a decoded or hashed byte
  string that verifies against an id is its content. Hash functions elsewhere are arbitrary function parameters; no
  claim assumes that they are injective. Merkle and piece claims say "equal, or here are two different inputs with
  one digest", and the two inputs are named members of what the two computations hashed.
* The store's index is a set of maps and each index transaction is one atomic step. A failed commit is a crash. A file
  is a byte string behind an inode; unlinking and re-creating a path gives a new inode while old handles keep the old one.
* The verified-slice decoder is an oracle: it writes correct leaves inside the requested groups, and when it reports
  success it has written exactly the requested groups, clamped to the object's size.
* `read_range` is modelled from the index look on: the range is clamped to the recorded size, and an empty one takes no
  step.
* A streaming source answers with exactly as many bytes as it was asked for or not at all, as `WebSeed.ReadRange` ensures
  and `Swarm.TryFetchParallel` does for whole pieces; it may fail or lie at any request.
* Threads of both halves of the store interleave step by step: a step is one index transaction, one file operation or
  one lock acquisition. `ensure_sparse` opens, tests, sizes and claims in four steps; `read_range` reads the record,
  opens and reads in three; `remove` and `insert_bytes` look at the index in one step and act in later ones. A
  compaction belongs to the thread that runs it: any number may run at once, on the same victim too, and inserts,
  removals, evictions, pins, crashes and reopening may fall between any two of their steps. The slab lock is held from
  an append to its transaction. A crash may cut bytes off the end of any slab file.
* In the methods, state that the program updates in place is state of a class (`GroupBits`, `Slabs`, `Cache`,
  `Parser`, `PieceStore`, `Session`, `Peer`) or an output threaded through a loop, and each method is proved equal to a
  specification function or to set-level facts. `Slabs` keeps its tables, files and open-slab pair in one record, so
  that its methods make the very steps the interleaved model is made of.
* Map iteration order is the order of a Rust `BTreeMap`: increasing byte order of the keys. For `String` keys that is
  code-point order, which `Unicode.Utf8Order` proves.

## What turned out to need a condition

* **Verified bytes need agreement on sizes.** `ensure_sparse` tests the length of the file and sets it later, and the
  size is what its caller declares. Whenever the callers of an id declare one size, present groups are right after
  every run (`SparseProofs.RunKeeps`). For any two different positive sizes up to the object's own there is a run that
  truncates verified bytes (`SparseRaces.DifferentSizesTruncate`).
* **Reading a range takes three steps.** The range of a present group read back at one moment is right
  (`SparseProofs.PresentRangesReadBack`), but nothing registers a reader between its look at the record and the opening
  of the path. `SparseReads.ReadRangeRight`: the bytes are the object's if no unlink of the object lands in that gap,
  and the file opened is another one if and only if one does. `SparseRaces.ReadsZeros` is a run in which the read
  succeeds and returns zeros.
* **A sparse record can lose its file.** One step leaves a record without a file exactly if it is an unlink after the
  record came back, or a claim of the record after its file was unlinked (`SparseLinks.LosesIff`), and some state of a
  run has such a record exactly if one of these steps happens in it (`SparseLinks.RunLosesIff`). When no
  `ensure_sparse` of an id overlaps a delete of it, every record keeps its file (`SparseLinks.RecordsKeepFiles`).
  `SparseRaces.RecordWithoutFile` is a run that loses one.
* **The books of a slab need removes and inserts that find the row they looked at.** A remove books the bytes dead in
  the slab it read about, even when a compaction has moved the object or another remove has deleted it since; an insert
  overwrites a row that appeared behind its look. `SlabAccounts.RemoveBooksIff` and `InsertBooksIff` say exactly when
  live plus dead bytes still add up, `BooksBalance` carries it over runs, and `SlabRaces` has the failing runs: dead
  bytes beyond the length (`RacingRemoves`), bytes of the open slab that are neither live nor dead (`RemoveLeaksMoved`),
  and a second insert that also drops a pin (`SecondInsertUnpins`). Bytes and places stay right in all of them
  (`SlabProofs.SlabsAlwaysSound`, `SlabReads.RunReads`).
* **One place per file.** `assign` keeps a path that the previous membership names twice in both places;
  `BundleProofs.PlacedOnceIff` gives the exact condition and `DuplicateStays` an instance. The recorded place is right
  all the same (`BundleProofs.AssignmentPlacesAll`).
* **Reading memberships back.** Offsets alone do not order empty files, and two bundles with the same bytes share an
  id and hence a key. `ManifestProofs.ReadBackIff` is the exact condition for the round trip.
* **The info-hash covers one value.** `from_info_dict` hashes the value at the front of the bytes handed in. When that is
  all of them, exactly those bytes are hashed; further sorted keys behind it are accepted and unhashed
  (`Metainfo.TrailingKeysUnhashed`).
* **Leaf hashes of 32 bytes.** `verify_proof` does not look at the length of the decoded leaf hash; the soundness
  theorem needs it to be 32 (`ChainMerkle.ShortLeafAccepted`).
* **Piece counts.** `piece_size` makes sense exactly when there are `ceil(total / piece length)` hashes, which parsing
  does not check (`TorrentLayout.PieceSizesIff`); with more the last size drops to zero or below, with fewer it exceeds
  a piece (`LastPieceSize`, and `TwoHashesForOnePiece` for a concrete one).
* **Segments of a huge piece.** The 32-bit segment size wraps, to zero, exactly when one peer is asked for a piece within
  a block of 2^32 bytes (`Swarm.SegmentWrapsIff`).

## Model

| member | source | states |
|---|---|---|
| `GroupBitsModel.GroupsForBytesTouch` | crates/epix-blob/src/bitfield.rs:49-54 | the group range of a byte range holds exactly the groups that some byte of it lies in |
| `GroupBitsModel.WireMeans` | crates/epix-blob/src/bitfield.rs:216-241 | the alternating run lengths written for a run list denote the same set of groups |
| `GroupRuns.CanonicalUnique` | crates/epix-blob/src/bitfield.rs:36-41 | sorted, disjoint, non-adjacent run lists are equal exactly when they hold the same groups |
| `GroupBitsModel.GroupBits.Contains` | crates/epix-blob/src/bitfield.rs:77-90 | binary search answers membership in the set |
| `GroupBitsModel.GroupBits.ContainsAll` | crates/epix-blob/src/bitfield.rs:92-98 | one run is enough to decide whether every group of a range is in the set |
| `GroupBitsModel.GroupBits.Add` | crates/epix-blob/src/bitfield.rs:101-144 | the set becomes its union with the range and the runs stay sorted, disjoint and non-adjacent |
| `GroupBitsModel.GroupBits.Remove` | crates/epix-blob/src/bitfield.rs:147-165 | the set becomes its difference with the range and the runs stay canonical |
| `GroupBitsModel.GroupBits.Count` | crates/epix-blob/src/bitfield.rs:173-175 | the sum of run lengths is the size of the set |
| `GroupBitsModel.GroupBits.IsComplete` | crates/epix-blob/src/bitfield.rs:182-185 | true exactly when the set is all groups of the object |
| `GroupBitsModel.GroupBits.Gaps` | crates/epix-blob/src/bitfield.rs:188-211 | canonical runs of exactly the groups of the window that are not in the set |
| `GroupBitsModel.GroupBits.AddedIn` | crates/epix-blob/src/bitfield.rs:214-221 | the delta holds exactly the groups the other set has and this one lacks |
| `GroupBitsModel.GroupBits.ToWire` | crates/epix-blob/src/bitfield.rs:224-240 | the wire list denotes the set |
| `GroupBitsModel.GroupBits.FromWire` | crates/epix-blob/src/bitfield.rs:246-273 | a list is accepted exactly within both caps, and an accepted one gives canonical runs of the set it denotes |
| `GroupBitsModel.GroupBits.FromLocal` | crates/epix-blob/src/store.rs:112-125 | every locally stored list is read as the set it denotes, cut at the 64-bit limit where sums saturate |
| `GroupBitsModel.RoundTrip` | crates/epix-blob/src/bitfield.rs:223-273 | decoding what was encoded gives the same runs, exactly when both caps are respected |
| `GroupBitsModel.LocalRoundTrip` | crates/epix-blob/src/store.rs:112-125 | the local form round-trips for every set |
| `GroupBitsModel.LocalAgrees` | crates/epix-blob/src/store.rs:112-125 | whatever the peer decoder accepts, the local decoder reads the same |
| `ChunkRanges.ChunksOfBytes` | crates/epix-blob/src/verified.rs:72-85 | a chunk is requested exactly when some non-empty byte range touches its group |
| `ChunkRanges.ChunksOfGroups` | crates/epix-blob/src/bitfield.rs:293-304 | the clamped chunks are those of present groups that the object really has |
| `ChunkRanges.CompleteChunks` | crates/epix-blob/src/bitfield.rs:286-304 | for a complete set the clamp leaves all chunks of the object, the short tail included |
| `Coverage.MergeExtents` | crates/epix-blob/src/store.rs:160-172 | sorting and merging extents keeps exactly the bytes they cover and leaves them apart |
| `Coverage.FullyCoveredGroups` | crates/epix-blob/src/store.rs:160-178 | a group is marked if and only if every byte of it, the tail clamped to the size, was written, for any list of extents |
| `Coverage.LandedIsRequested` | crates/epix-blob/src/store.rs:131-178 | when the decode wrote exactly the requested bytes, the covered groups are the requested groups of the object |
| `Coverage.BothWritersAgree` | crates/epix-blob/src/store.rs:1074-1183 | after a successful decode the partial and the all-or-nothing writer leave the same present set |
| `SparseProofs.StepKeeps` | crates/epix-blob/src/store.rs:1033-1183 | every step of every thread, each file operation of `ensure_len` on its own, keeps: present groups of a record are right in the file linked for it, writers are counted, a delete excludes writers; an `ensure_sparse` declares the id's one size |
| `SparseProofs.RunKeeps` | crates/epix-blob/src/store.rs:260-304 | the same for every interleaving of any length |
| `SparseProofs.PresentRangesReadBack` | crates/epix-blob/src/store.rs:260-304 | after every interleaving from a freshly opened store, a byte range whose groups are present stands right in the file linked at that moment |
| `SparseReads.ReadRangeRight` | crates/epix-blob/src/store.rs:1271-1311 | a `read_range` among any other threads returns the object's bytes if nothing unlinks the object between its look at the record and its opening of the file, whatever happens before and after; the file it opens is the one it saw if and only if nothing does |
| `SparseReads.SameInodeIff` | crates/epix-blob/src/store.rs:1340-1390 | over any run a path names the inode it named before if and only if no step unlinked it |
| `SparseLinks.LosesIff` | crates/epix-blob/src/store.rs:1340-1390 | a step leaves a record without a file if and only if it unlinks after the record came back, or claims the record after the unlink |
| `SparseLinks.RunLosesIff` | crates/epix-blob/src/store.rs:1033-1069 | some state of a run has a record without a file if and only if one of those steps happens in the run |
| `SparseLinks.RecordsKeepFiles` | crates/epix-blob/src/store.rs:1033-1069 | when no `ensure_sparse` of an id overlaps a delete of it, every record keeps its file over every run |
| `SparseRecords.PinnedSurvives` | crates/epix-blob/src/store.rs:1395-1448 | no step but a remove of that object takes a referenced record away or changes its count behind its back |
| `SparseRecords.BusyOrHeldSurvives` | crates/epix-blob/src/store.rs:1395-1448 | eviction leaves objects that are being written or held |
| `SparseWrites.CommitLands` | crates/epix-blob/src/store.rs:1103-1114 | a commit adds to the present set, as it is at that moment, exactly this: for `write_slice`, after a decode that ended well, the groups that a byte of a requested range lies in; for the partial writer, however the decode ended, the groups whose every byte up to the size was written; size, count and every other row stay |
| `SparseWrites.WrittenIsReadable` | crates/epix-blob/src/store.rs:1103-1114 | a non-empty range that a finished `write_slice` wrote can be read by any thread, over every run that neither deletes nor revalidates the object |
| `SparseWrites.ReadStartsIff` | crates/epix-blob/src/store.rs:1271-1311 | a read gets past the index if and only if the range is non-empty, inside the object, and the group of each of its bytes is present |
| `SparseRows.RowsAreOwn` | crates/epix-blob/src/store.rs:1103-1183 | over any run an object's size, reference count and access time are what its own claims, deletes, pins, reference changes, touches and finished writes make of them, in order |
| `SparseRows.HoldsAreOwn` | crates/epix-blob/src/store.rs:1395-1448 | over any run an object is held against eviction exactly as often as it was held and not let go |
| `SparseAlone.RemoveAlone` | crates/epix-blob/src/store.rs:1340-1390 | run alone, a remove takes record and path of an object that is not being written and leaves every other state as it was |
| `SparseAlone.EvictAlone` | crates/epix-blob/src/store.rs:1395-1448 | run alone, an eviction takes exactly an object that nobody refers to, writes or holds |
| `SparseAlone.EnsureAlone` | crates/epix-blob/src/store.rs:1033-1069 | run alone, `ensure_sparse` makes an empty record of the declared size over a file that keeps what it held and is zeros behind, or does nothing over the cap or with a record |
| `SparseAlone.WriteOpens` | crates/epix-blob/src/store.rs:1074-1101 | run alone, a write gets to its decode exactly if the object has a record that no range exceeds and a file; otherwise it ends with nothing written |
| `SparseAlone.WriteReleases` | crates/epix-blob/src/store.rs:1074-1116 | a write that ends is counted as a writer no more, and changes nothing else on the way out |
| `SparseRecords.PresentOnlyGrows` | crates/epix-blob/src/store.rs:601-624 | no writer writes back a stale row: a surviving record's present set only grows, revalidation aside |
| `SparseRaces.DifferentSizesTruncate` | crates/epix-blob/src/store.rs:1869-1875 | for any two different declared sizes up to the object's, a run from an empty store in which the smaller one truncates bytes that are marked present |
| `SparseRaces.RecordWithoutFile` | crates/epix-blob/src/store.rs:1340-1390 | a run that leaves a record without a linked file, with an empty present set |
| `SparseRaces.ReadsZeros` | crates/epix-blob/src/store.rs:1276-1311 | a run in which a read of a present range succeeds and returns zeros for an object whose first byte is not zero |
| `SlabProofs.StepKeeps` | crates/epix-blob/src/store.rs:343-466 | every step of insert, remove, any number of compactions, crash and reopen keeps the slab invariant |
| `SlabProofs.RunKeeps` | crates/epix-blob/src/store.rs:343-466 | the same for whole runs |
| `SlabProofs.SlabsAlwaysSound` | crates/epix-blob/src/store.rs:684-757 | in every reachable state the open slab is the only unsealed and the highest one, tracked and file length agree up to an append in flight, live ranges are disjoint and inside |
| `SlabProofs.ReadsOwnBytesOrFails` | crates/epix-blob/src/store.rs:1313-1320 | reading a slab object gives its own bytes or fails, whatever the files lost |
| `SlabProofs.DroppedIsUnreferenced` | crates/epix-blob/src/store.rs:1714-1722 | no record points into a slab that any compaction has dropped |
| `SlabReads.RunReads` | crates/epix-blob/src/store.rs:1631-1723 | over a whole run without a crash, inserts, pins, evictions, removals and several compactions interleaved, an object that does not read back at the end did not at the start |
| `SlabReads.RowsAreOwn` | crates/epix-blob/src/store.rs:1671-1688 | over any run an object's reference count, size and access time are the fold of its own inserts, deletes, reference changes, touches and pins; compaction reverts none of them |
| `SlabReads.PinnedSurvives` | crates/epix-blob/src/store.rs:1395-1448 | a referenced object leaves the index only by its own remove, and no eviction, compaction or other object's step changes its count |
| `SlabReads.DeletedStaysOut` | crates/epix-blob/src/store.rs:1671-1688 | a deleted object stays out of the index until its next insert or claim, whatever compactions run |
| `SlabSeals.SealsAreRight` | crates/epix-blob/src/store.rs:684-757 | over any run a slab that no opening found damaged is sealed exactly when it has reached the slab size |
| `SlabSeals.SealsFromEmpty` | crates/epix-blob/src/store.rs:684-757 | in particular over every run from an empty directory |
| `SlabAccounts.RemoveBooksIff` | crates/epix-blob/src/store.rs:1334-1365 | the transaction of a remove leaves every slab's books as they were if and only if the slab it books is the one the row points into; and exactly when balanced books stay balanced |
| `SlabAccounts.InsertBooksIff` | crates/epix-blob/src/store.rs:684-757 | the transaction of an insert does so if and only if it overwrites no row in a slab |
| `SlabAccounts.BooksBalance` | crates/epix-blob/src/store.rs:1631-1723 | over every run from an empty directory in which removes and inserts find the rows they looked at, live plus dead bytes are at most a slab's length, and equal to it where no compaction was cut short |
| `SlabRaces.RacingRemoves` | crates/epix-blob/src/store.rs:1334-1365 | a run of two removes of one object that books more dead bytes than the slab has |
| `SlabRaces.SecondInsertUnpins` | crates/epix-blob/src/store.rs:684-757 | a run of two inserts of one object after which its pin is gone and the first copy is neither live nor dead |
| `SlabRaces.RemoveLeaksMoved` | crates/epix-blob/src/store.rs:1334-1365 | a run of a remove and a compaction after which bytes of the open slab are neither live nor dead |
| `SlabOperations.Slabs.InsertBytes` | crates/epix-blob/src/store.rs:684-757 | bytes that do not verify change nothing; a new object is appended at the end of the open slab, which is sealed and followed by the next number exactly when it is full; a complete record only has its access time brought forward; an incomplete one is replaced unless it is being decoded into; what is stored reads back, unreferenced; no other record changes but in its place; with nothing lost no read fails |
| `SlabOperations.Slabs.Remove` | crates/epix-blob/src/store.rs:1334-1338 | that record goes unless it is being decoded into, others change only their place, no object starts failing to read back, and with nothing lost it succeeds |
| `SlabOperations.Slabs.DeleteObject` | crates/epix-blob/src/store.rs:1340-1390 | exactly that record goes, its bytes are booked dead in its slab and in no other, and no file changes |
| `SlabOperations.Slabs.CompactIfWorthwhile` | crates/epix-blob/src/store.rs:1609-1627 | the sealed, non-empty slabs whose dead bytes reach the configured share of 256ths of their length are gone, row and file, exactly when all their objects can be read; other slabs only gain bytes at the end of the open one, and records change only their place |
| `SlabOperations.Slabs.CompactSlab` | crates/epix-blob/src/store.rs:1631-1723 | records change only their place, no object starts failing to read back, the other slabs only gain bytes at the end of the open one, and the pass finishes if and only if every object of the victim can be read; then neither row, file nor reference is left of it |
| `SlabOperations.Slabs.OpenWith` | crates/epix-blob/src/store.rs:343-466 | every slab file is cut back to its tracked length and no further; appends go on in the unsealed slab if its file is that long, and otherwise in a new one behind all others with that one sealed; every record is kept and no object starts failing to read back |
| `SlabOperations.NewestOpen` | crates/epix-blob/src/store.rs:370-381 | the walk finds the highest unsealed slab if there is one |
| `Quota.HeldCountsBytes` | crates/epix-blob/src/store.rs:200-219 | the held size computed from runs is the number of bytes in present groups, the tail clamped |
| `Quota.HeldIs` | crates/epix-blob/src/store.rs:200-219 | a slab object holds exactly its size, a sparse one the bytes of its present groups, a user's own file nothing, and none more than its size |
| `Quota.UnfilledIs` | crates/epix-blob/src/store.rs:1540-1546 | what a sparse reservation has not filled is the number of its bytes in groups that are not present; anything else misses nothing |
| `Quota.SortByAge` | crates/epix-blob/src/store.rs:1574-1595 | candidates come in eviction order, oldest access first |
| `Quota.Cache.DeleteIfUnreferenced` | crates/epix-blob/src/store.rs:1395-1448 | an object goes exactly when it is unpinned, not extern, not being written and not held |
| `Quota.Cache.TotalBytes` | crates/epix-blob/src/store.rs:1454-1464 | the scan's sum is the number of bytes held by all records together |
| `Quota.Cache.EvictLru` | crates/epix-blob/src/store.rs:1574-1607 | the bytes freed are those of the objects gone; these were free to go and are the least recently used of such, all of them needed; the demand is met unless nothing else is free to go |
| `Quota.Cache.EnforceReservationBound` | crates/epix-blob/src/store.rs:1531-1570 | the missing bytes end within the bound unless no incomplete reservation is free to go; those gone are the oldest and all of them were needed |
| `Quota.Cache.EnforceQuota` | crates/epix-blob/src/store.rs:1516-1607 | the two passes in their order, protected objects unchanged; both bounds hold in the end unless only protected objects could lower them; within both bounds nothing happens |
| `QuotaFacts.ExternsDoNotMatter` | crates/epix-blob/src/store.rs:1516-1607 | two tables that differ at most in the user's own files lose the same objects and return the same number; with one table taken twice, the outcome is determined |
| `QuotaFacts.ExternsCountNothing` | crates/epix-blob/src/store.rs:200-219 | both totals are those of the table without the user's own files |
| `BundleProofs.PlacedOnceIff` | crates/epix-blob/src/bundle.rs:61-103 | every file is in exactly one bundle if and only if more than `max(n / 4, 2)` bundles before the tail were under half the target or no surviving path was listed twice |
| `BundleProofs.DuplicateStays` | crates/epix-blob/src/bundle.rs:63-67 | a path listed twice before is in two places after |
| `BundleProofs.EveryFilePlaced` | crates/epix-blob/src/bundle.rs:124-139 | for any membership that lists exactly the files, with repetitions or without, each file's recorded bundle, offset and length hold exactly that file's bytes, and nothing else is recorded |
| `BundleProofs.AssignmentPlacesAll` | crates/epix-blob/src/bundle.rs:61-139 | so does every assignment, whatever the previous membership |
| `BundleProofs.NewFilesOnlyAppend` | crates/epix-blob/src/bundle.rs:69-89 | with at most `max(n / 4, 2)` bundles before the tail under half the target, nothing is repacked: only the last carried bundle grows, and only while it is under target; with no new files nothing changes |
| `BundleProofs.UntouchedKept` | crates/epix-blob/src/bundle.rs:13-19 | under the same bound a bundle whose files survive unedited keeps members, bytes and id across two signings, unless it is the open tail that new files go into |
| `BundleFill.AssignmentIff` | crates/epix-blob/src/bundle.rs:61-122 | stated without the program's functions: survivors in their bundles, new files filled in behind in path order, everything filled afresh in path order exactly when more than `max(n / 4, 2)` bundles before the tail are under half the target; this determines the membership, and it is the one assigned |
| `BundleFill.FillIff` | crates/epix-blob/src/bundle.rs:72-89 | exactly one membership continues a given one with given files greedily: no bundle opens before the last one reached the target and none takes a file after that |
| `BundleFill.SurvivorsFilter` | crates/epix-blob/src/bundle.rs:63-67 | survivors are the members that still exist, in their order |
| `BundleFill.CarriedFilter` | crates/epix-blob/src/bundle.rs:63-67 | bundles are carried one by one, without those that nobody survives in |
| `BundleFill.CarriedOne` | crates/epix-blob/src/bundle.rs:63-67 | of one bundle its survivors are carried, or nothing if it has none |
| `BundleFill.SizesAdd` | crates/epix-blob/src/bundle.rs:124-139 | sizes and bytes of bundles are those of their members, one after the other |
| `BundleFill.SizeOfOne` | crates/epix-blob/src/bundle.rs:124-139 | a bundle of one file is that file |
| `BundleProofs.FragmentationBounded` | crates/epix-blob/src/bundle.rs:91-101 | after any assignment at most `max(n / 4, 2)` bundles before the tail are under half the target |
| `BundleProofs.FirstSigning` | crates/epix-blob/src/bundle.rs:105-122 | a first signing packs as a repack does; every bundle before the tail reaches the target and none exceeds it by a whole file |
| `BundleProofs.AssignIdempotent` | crates/epix-blob/src/bundle.rs:61-103 | assigning the same files over the result changes nothing, repacked or not |
| `BundleAssign.Repack` | crates/epix-blob/src/bundle.rs:106-122 | the loop with its running size is the greedy fill in path order |
| `BundleAssign.Build` | crates/epix-blob/src/bundle.rs:124-139 | the nested loops mint each bundle from its members' bytes and record every member's place |
| `BundleAssign.Assign` | crates/epix-blob/src/bundle.rs:61-103 | the whole run: the membership is the one `BundleFill.AssignmentIff` describes, each bundle's bytes are its files' in order and its id their digest, every file is recorded where its bytes are, in one place when the previous membership had no duplicates, and few bundles are small |
| `FilesMerkle.LeafInputUnique` | crates/epix-blob/src/manifest.rs:222-233 | a leaf input determines path, root and size although the length field is cut to 32 bits |
| `FilesMerkle.RootIsTree` | crates/epix-blob/src/manifest.rs:237-252 | the levels with promoted odd nodes compute the digest of one binary tree |
| `FilesMerkle.RootBinds` | crates/epix-blob/src/manifest.rs:215-255 | two different entry maps with one root yield two different inputs, one hashed for each, with one digest, or an input that hashes to zeros |
| `FilesMerkleOps.FilesMerkleRoot` | crates/epix-blob/src/manifest.rs:222-255 | the level loop computes the root of the entries: zeros for none, otherwise the tree hash of one leaf for each, in path order |
| `FilesMerkleForm.LevelsAreTree` | crates/epix-blob/src/manifest.rs:237-252 | hashing level by level with odd nodes promoted is the tree hash of section 2.1 of RFC 6962 over the leaf hashes, inner nodes marked by a byte one |
| `FilesMerkleForm.LeafIs` | crates/epix-blob/src/manifest.rs:222-233 | a leaf input is a zero byte, the length of the path in four bytes, the path, the root and the size in eight bytes, little endian |
| `ManifestProofs.AppliedRefs` | crates/epix-blob/src/manifest.rs:275-299 | after the pass the references in both tables are exactly those of the placed files, each once |
| `ManifestProofs.OrderReadBack` | crates/epix-blob/src/manifest.rs:180-194 | bundles under different keys come back in creation order |
| `ManifestProofs.MembersReadBack` | crates/epix-blob/src/manifest.rs:206-213 | sorting by offset gives the members back if and only if neighbours are told apart by bytes or path order |
| `ManifestProofs.ReadBackIff` | crates/epix-blob/src/manifest.rs:172-214 | the memberships written are the memberships read if and only if bundle ids differ and each bundle is in offset order |
| `ManifestProofs.ResigningFixpoint` | crates/epix-blob/src/manifest.rs:268-318 | for any duplicate-free previous membership, reading back and assigning again gives identical bundles |
| `ManifestOps.ApplyEdx` | crates/epix-blob/src/manifest.rs:268-318 | every field the pass writes, by its name: `b3`, `bundle` and `off` in both tables, the bundle declarations with size and order, the files root over exactly the stamped entries, the version, and no other change; a non-object is left alone |
| `ManifestFields.AppliedIs` | crates/epix-blob/src/manifest.rs:268-318 | the specified manifest has exactly these fields |
| `ManifestFields.EntriesAre` | crates/epix-blob/src/manifest.rs:283-299 | the root commits to root and declared size of every stamped entry of either table |
| `ManifestOps.PrevMemberships` | crates/epix-blob/src/manifest.rs:175-214 | grouping into a map and draining it in order gives the one list of memberships that `ManifestReads.RecordedIff` describes |
| `ManifestReads.RecordedIff` | crates/epix-blob/src/manifest.rs:175-214 | for any manifest the memberships read are exactly: for each declared bundle, by its persisted order or its place in the map, the entries of both tables that point at it, by offset and then path |
| `Bencode.Find` | crates/epix-bt/src/bencode.rs:135-141 | the scan stops at the first terminator or finds none |
| `BencodeProofs.ValueRead` | crates/epix-bt/src/bencode.rs:116-215 | wherever an encoding stands in a buffer, the parser reads that value and stops right behind it |
| `BencodeProofs.DecodeInvertsEncode` | crates/epix-bt/src/bencode.rs:76-93 | `decode_prefix(encode(v) ++ rest)` is `v` and `len(encode(v))` for every value and every trailer; a whole-buffer decode refuses a trailer |
| `BencodeProofs.PrefixFree` | crates/epix-bt/src/bencode.rs:219-254 | the encoding is injective and prefix-free |
| `BencodeProofs.ValueLocal` | crates/epix-bt/src/bencode.rs:99-104 | a successful parse depends on nothing but the bytes it consumed |
| `BencodeProofs.ValueCanonical` | crates/epix-bt/src/bencode.rs:187-215 | every accepted dictionary is strictly sorted, at any depth |
| `BencodeProofs.ReencodeDecodes` | crates/epix-bt/src/bencode.rs:76-93 | decoding, encoding and decoding again gives the first value |
| `BencodeProofs.InfoSpanDecodes` | crates/epix-bt/src/bencode.rs:95-104 | the reported span decodes on its own to the `info` value; no span exactly when there is no such key |
| `BencodeGrammar.AcceptsIff` | crates/epix-bt/src/bencode.rs:76-215 | a text is accepted as a value if and only if it spells it: the grammar without a parser, signs, leading zeros, ranges, key order and all, for a whole buffer and for a prefix |
| `BencodeErrors.RefusedIff` | crates/epix-bt/src/bencode.rs:76-215 | which error a text is refused with, said without a parser: where it first stops spelling a value, in a number, a length, a key out of order, a stray byte, the end of the text, or bytes behind a whole value |
| `BencodeGrammar.EncodingShortest` | crates/epix-bt/src/bencode.rs:219-254 | the encoding is the one shortest spelling of its value |
| `BencodeCodec.Parser.Integer` | crates/epix-bt/src/bencode.rs:135-153 | the cursor reads what the grammar says or reports its error |
| `BencodeCodec.Parser.ByteString` | crates/epix-bt/src/bencode.rs:155-175 | the same for byte strings, overflowing and overlong lengths included |
| `BencodeCodec.Parser.List` | crates/epix-bt/src/bencode.rs:177-185 | the loop reads the items the recursive grammar describes |
| `BencodeCodec.Parser.Dict` | crates/epix-bt/src/bencode.rs:187-215 | the loop reads the sorted fields and the span of `info` |
| `BencodeCodec.Decode` | crates/epix-bt/src/bencode.rs:76-83 | returns a value if and only if the buffer spells it, and an error if and only if `BencodeErrors.RefusedIff` says it breaks with that error |
| `BencodeCodec.DecodePrefix` | crates/epix-bt/src/bencode.rs:89-93 | the same for a prefix: value and consumed length, or the error |
| `BencodeCodec.DecodeTorrent` | crates/epix-bt/src/bencode.rs:99-104 | the root equals the plain decode, and the span's slice decodes to its `info` |
| `BencodeCodec.EncodeInto` | crates/epix-bt/src/bencode.rs:225-254 | appends the canonical encoding |
| `BencodeCodec.Encode` | crates/epix-bt/src/bencode.rs:219-223 | the result spells and decodes to the value and no other spelling is as short |
| `Metainfo.FromInfoDict` | crates/epix-bt/src/metainfo.rs:115-135 | for bytes that are one complete value the hash is over exactly those bytes and a mismatch is refused if and only if it differs; in general it is over the value at their front |
| `Metainfo.TrailingKeysUnhashed` | crates/epix-bt/src/metainfo.rs:115-135 | further sorted keys behind the dictionary are accepted and not hashed |
| `Decimal.DigitsRead` | crates/epix-bt/src/bencode.rs:228-236 | a decimal numeral reads back to its number and has no leading zero |
| `Unicode.Utf8Order` | crates/epix-content/src/canonical.rs:10-12 | UTF-8 byte order is code-point order and UTF-8 is injective |
| `Unicode.Utf8Reads` | crates/epix-content/src/canonical.rs:10-12 | the bytes of a character, read by the bits of section 3 of RFC 3629, give the character back, and are as few as can be |
| `KeyOrder.SortKeys` | crates/epix-content/src/canonical.rs:44-45 | sorting keys by bytes gives all of them in code-point order |
| `CanonicalProofs.EscapeUnique` | crates/epix-content/src/canonical.rs:65-86 | no two characters have escapes one of which begins the other, surrogate pairs included |
| `CanonicalProofs.TextUnique` | crates/epix-content/src/canonical.rs:23-57 | two delimited texts at one place are of the same value, at any nesting |
| `CanonicalProofs.TextInjective` | crates/epix-content/src/canonical.rs:17-21 | different JSON values have different texts |
| `CanonicalProofs.TextPrintable` | crates/epix-content/src/canonical.rs:59-88 | only printable ASCII is written |
| `CanonicalReadBack.ReadsAsIff` | crates/epix-content/src/canonical.rs:17-88 | against an independent strict reader of RFC 8259 (keys increasing, one space behind commas and colons, lower-case `\u` exactly where there is no shorter form, surrogate pairs joined): a text reads as a value if and only if it is the text written |
| `CanonicalWriter.WritePyString` | crates/epix-content/src/canonical.rs:62-88 | the character loop appends a string that reads back, by section 7 of RFC 8259, as the one given |
| `CanonicalWriter.WriteValue` | crates/epix-content/src/canonical.rs:23-57 | the recursive writer appends the text with sorted keys and separators |
| `CanonicalWriter.DumpsSorted` | crates/epix-content/src/canonical.rs:17-21 | reading the result gives the value back, and no other text of the canonical form does; it is printable and the text of no other value |
| `RangeHeader.ParseRange` | crates/epix-bt/src/engine.rs:423-447 | an accepted range is non-empty and inside the resource; `EndsForm`, `PaddingIgnored` and `EndsMean` say which header gives which range |
| `RangeHeader.FirstLast` | crates/epix-bt/src/engine.rs:423-447 | `bytes=a-b` means bytes a to b clipped to the end, for all numbers (section 14.1.2 of RFC 9110) |
| `RangeHeader.FirstOnly` | crates/epix-bt/src/engine.rs:439-446 | `bytes=a-` means everything from a on |
| `RangeHeader.SuffixOnly` | crates/epix-bt/src/engine.rs:430-438 | `bytes=-n` means the last n bytes |
| `RangeHeader.EndsMean` | crates/epix-bt/src/engine.rs:430-446 | what two ends of a range ask for, numbers or not, and when they are refused |
| `RangeHeader.UnsignedIff` | crates/epix-bt/src/engine.rs:430-446 | a number is at least one digit, a plus sign in front or not, within 64 bits |
| `RangeHeader.PaddingIgnored` | crates/epix-bt/src/engine.rs:423-430 | white space around header, list, range and ends makes no difference, nor what follows the first comma |
| `RangeHeader.EndsForm` | crates/epix-bt/src/engine.rs:423-430 | a header has two ends only if it has that form |
| `TorrentLayout.PieceSizesIff` | crates/epix-bt/src/metainfo.rs:90-97 | all pieces have between one byte and the piece length if and only if there are as many hashes as the total needs |
| `TorrentLayout.LastPieceSize` | crates/epix-bt/src/metainfo.rs:90-97 | with too many hashes the last piece has no bytes or fewer, with too few more than a piece, and only then |
| `TorrentLayout.TwoHashesForOnePiece` | crates/epix-bt/src/metainfo.rs:90-97 | a layout whose last piece computes to minus one byte |
| `TorrentLayout.PieceOfByte` | crates/epix-bt/src/metainfo.rs:90-97 | pieces tile the torrent: each byte is in the piece its offset names |
| `WebSeed.ReadRange` | crates/epix-bt/src/webseed.rs:105-148 | requests tile the range across files without gap or overlap; every answer is the first delivered by a base that has as many bytes as asked for, and none is missing unless no base delivers; truthful answers join to the torrent's bytes; a range beyond the torrent is refused after what there is of it |
| `WebSeed.FetchIff` | crates/epix-bt/src/webseed.rs:126-148 | a request is answered by the first base that delivers exactly its bytes, and refused if and only if none does |
| `Streaming.PieceStored` | crates/epix-bt/src/engine.rs:284-295 | writing a verified piece's part of the file keeps every present byte equal to its piece's |
| `Streaming.PieceStore.ReadAt` | crates/epix-bt/src/store.rs:85-95 | reads are clipped to the file |
| `Streaming.Session.EnsurePiece` | crates/epix-bt/src/engine.rs:268-297 | a piece is present afterwards or the source failed it; a present one is not fetched again, a missing one is fetched whole, and only bytes with the right hash are stored |
| `Streaming.Session.Serve` | crates/epix-bt/src/engine.rs:229-264 | the window answers the header, is non-empty, within `MAX_CHUNK` and the file, and is made of verified pieces; only missing pieces of it are fetched, each whole from its own place, and the request fails if and only if the source fails one of them; a range that cannot be satisfied fetches nothing |
| `Streaming.WindowIsData` | crates/epix-bt/src/engine.rs:229-264 | a served window is the torrent's bytes, or a piece of its window collides with the true piece |
| `Streaming.ServeAll` | crates/epix-bt/src/engine.rs:229-297 | the same for every sequence of requests with sources that fail or lie in between |
| `Swarm.SegmentBounds` | crates/epix-bt/src/swarm.rs:313-325 | non-empty, block-aligned, contiguous segments tile the piece, at most one a peer |
| `Swarm.SegmentWrapsIff` | crates/epix-bt/src/swarm.rs:313-317 | the 32-bit segment size overflows, to zero, if and only if one peer is asked for a piece within a block of 2^32 bytes |
| `Swarm.Peer.FetchRange` | crates/epix-bt/src/peer.rs:349-406 | interest is announced first and once; whenever the loop comes round unchoked with nothing outstanding, and only then, every block of the range is asked for once in order, again after a choke; from a truthful peer the range comes exactly when all its blocks arrive, in any order, with duplicates and choking, and is the piece's bytes |
| `Swarm.Assemble` | crates/epix-bt/src/swarm.rs:194-213 | in whatever order tasks finish, the piece is assembled exactly when every segment came, and only failed peers are dropped |
| `Swarm.TryFetchParallel` | crates/epix-bt/src/swarm.rs:174-213 | each asked peer is asked for its own segment and the others for nothing; with truthful peers the result is exactly the piece, if and only if every asked peer delivers its segment; peers that fail are dropped, the others stay in order |
| `Swarm.EveryBlockOnce` | crates/epix-bt/src/swarm.rs:313-325 | over all segments together every block of the piece is asked for in exactly one place, whole or cut to the end of the piece |
| `ChainMerkle.HonestClimb` | crates/epix-chain/src/merkle.rs:10-30 | the sibling path of any leaf of a tree of any depth climbs to its root |
| `ChainMerkle.ClimbSound` | crates/epix-chain/src/merkle.rs:10-30 | an accepted path of the tree's depth carries the leaf its index names modulo the number of leaves, or two named inputs collide |
| `ChainMerkle.ShortLeafAccepted` | crates/epix-chain/src/merkle.rs:16-27 | leaf hashes of other lengths are accepted, and one is the leaf only at 32 bytes |
| `ChainMerkle.VerifyProof` | crates/epix-chain/src/merkle.rs:10-30 | malformed texts are reported in order; otherwise the verdict compares the text of the hash that the path climbs to, side by side as the bits of the index say, with the expected one |
| `ChainMerkle.ClimbOnce` | crates/epix-chain/src/merkle.rs:16-27 | there is one way up, and every hash on it is the computed one |
| `Hex.HexDecodeIff` | crates/epix-chain/src/merkle.rs:10-30 | exactly the texts of two digits a byte decode, in either case |
| `Hex.HexValuesAre` | crates/epix-chain/src/merkle.rs:10-30 | which characters are digits of which value, and which are written |
| `ChainMerkle.ProofsSound` | crates/epix-chain/src/merkle.rs:10-30 | soundness for hexadecimal texts |
| `ChainMerkle.VerifyHonest` | crates/epix-chain/src/merkle.rs:10-30 | honest hexadecimal proofs are accepted |

## Left out

- Streaming.Session.Serve: needs a non-empty file and as many piece hashes as the total takes, which metainfo parsing does not establish; without them the length of the last piece underflows.
- Swarm.SegmentBounds: needs the segment size to fit 32 bits; `Swarm.SegmentWrapsIff` says exactly when it does not, and there the size is zero and the loop does not end.
- Swarm.TryFetchParallel: the same condition.
- SparseProofs.RunKeeps: needs one declared size per id. That different sizes fail is shown for sizes up to the object's own length; what the decoder does under a longer one is library behaviour.
- ChainMerkle.ClimbSound: needs a leaf hash of 32 bytes and a path of the tree's depth, which the check does not look at.
- Metainfo.FromInfoDict: follows the parse up to the info dictionary and its hash, not the fields read from it.
- Extern files: `adopt_extern`, `materialize` and `retire_extern` appear only as records that eviction must not take; the files themselves are the user's and can change outside the store.
- Torn appends: truncating the open slab back after a failed append is taken to succeed.
- Widths in the slab and quota models: lengths and totals are unbounded; 32-bit slab offsets, 64-bit saturation and `u64` overflow are not covered.
- Compaction at the end of `evict_lru`: it changes places only, which is what the slab model proves, and is not repeated in the quota model.
- The byte count that `write_slice_partial` returns: the sum over the groups that landed which `Quota.HeldCountsBytes` is about.
- `revalidate`: in the sparse model it may shrink a present set to any subset at any time; which subset the outboard check keeps is library behaviour.
- Outboards, `encode_slice` and slice serving: behaviour of the verified-streaming library.
- `edx_entry`, `parse_entry`, shard entries and the salt: lookups of single manifest fields; no claim here depends on them.
- `dumps_content` and its compaction by regular expressions: not covered by signatures.
- JSON floating-point numbers: signed payloads do not use them; integers are unbounded here.
- The metainfo fields behind the info dictionary (names, path cleaning, file list) and `primary_file`: string handling and tie-breaking.
- The reverse bencode round trip: the decoder accepts a plus sign and leading zeros in lengths, so it does not hold and is not promised.
- URL construction of web seeds and HTTP transport: strings and I/O; a base is a function from requests to answers.
- Per-piece fetch locks of the streaming session: requests run one after another.
- Healing of the swarm (spare peers, discovery, deadlines), tasks that panic, and `read_range` slicing of the fetched piece: retries around the modelled attempt.
- Peers that send blocks that are not whole aligned blocks: byte coverage is not promised for them; the piece hash catches them.
- `has_piece` and `note_have`: reading and setting one bit of a peer's bitfield; which pieces a peer claims to have is an input of the swarm model.
- `responsibility.rs` and `policy.rs`: floating-point thresholds and prefix lookups.
- DHT, magnet links, SOCKS, RPC clients, the browser shell and packaging: network and platform code.
