# Verification of the key store, the codec and the sync protocols of amp-host-go

The project models five parts of the host and proves what they promise.

* **The key store.** `KeyringStore.Keyring` and `KeyTomeStore.KeyTome` are classes whose methods rewrite their lists in
  place, as the Go methods do: sorting, compaction, the swap-remove loops of the two merges, binary search. They are
  proved against functions on lists (`KeyOrder`, `KeyLists`, `TomeMerge`), and `KeyExport` joins export, codec and import.
* **The wire codec and signed payloads.** `Codec` says what the messages look like in the Protocol Buffers wire format
  (encoding guide, sections "Base 128 Varints", "Length-Delimited Records", "Submessages" and "Groups"); `CodecLoops` has
  the loops that fill a buffer backwards and read it forwards with shifts, each proved equal to it. `SignedPayload` has
  the framing on top. Hashing, signing and verifying are functions of which only this is known: digests have their kit's
  size, and what was signed verifies.
* **The shoutcast stream.** `IcyStream` has `Read` with its in-place shifts, against a machine that looks at the stream one
  byte at a time.
* **Cell sync.** `CellSync` is a machine whose steps are the atomic steps of commits and pins; `CellHistory` says what a
  schedule has done to each commit, the database and each pin, `CellViews` what a client makes of the snapshot and the
  transactions it gets, and `CellProgress` that commits can be finished and pins brought up to date from everywhere.
* **The symbol table and the request table.** `SymbolTable` is the table under calls one after the other, `SymbolCalls`
  under concurrent calls; `Session` is the machine of requests, closers and shutdown, `SessionLeaks` says which messages
  can leave a reference behind, and `SessionReuse` is one run (`SessionRuns` helps to build such).

`Wrappers`, `Lists`, `Bytes`, `Messages`, `Words`, `Varint` and `Wire` are shared. A run of a machine is a list of steps, and its
theorems are about every list whose steps are each possible in turn, so about every interleaving.

## Where the code does not do what is said of it

Each of these is stated with the exact condition, and with a concrete input where one is called for.

* `UnpackAndVerify` computes the end of the SigHeader as `2 + low | high << 8`. In Go `+` and `|` have one precedence, so
  the sum is or-ed. A payload comes back if and only if the two length bytes are read back as the header's size (510 and
  511 are the first sizes that are not), the frame has 50 bytes, and 10 are behind the header
  (`SignedPayload.UnpackInvertsPack`, `SignedPayload.LostAt510`).
* `PackAndSign` puts the digest 100 bytes past the body, so a signature of more than 99 bytes runs over its beginning;
  the digest is intact if and only if the bytes happen to be the same (`SignedPayload.DigestKept`).
* `CompareKeyInfo` subtracts times. Newer entries come first exactly when the difference fits in 64 bits
  (`KeyOrder.NewerSortsFirstIff`); non-negative times are enough.
* `Stream.Read` measures the caller's buffer, not the bytes read, when a block is cut off. A call stays in step if and only
  if every block met is wholly among the bytes read, or the first one is not and the read filled the buffer
  (`IcyStream.RunDeinterleaves`, `IcyStream.BlockReturnedAsAudio`).
* `commitTx` skips an operation without an edit but still pushes it; a transaction may name another cell; two commits of one
  key may be delivered in the other order. A client's view equals the stored map in every schedule if and only if none of
  this can happen (`CellViews.ViewsConverge`).
* `getsetValueIDPair` retries a conflicting transaction without reading again. A value can be given another ID by a retry,
  and by nothing else; pending calls are safe in every order if and only if no two are for one value and none is for a value
  that has an ID (`SymbolCalls.StableIffNoOverlap`). Returned IDs stay valid regardless.
* `addClientOp` publishes a request before its transaction is attached, and does not register one with the nil ID. A message's
  transaction can keep a reference for good if and only if the message is to be committed, has no parent or another open
  request as its parent, and has the nil ID or the ID of an earlier request that was handed to its app: a second completion of
  that one can close the new one in between (`SessionLeaks.LeaksIffReused`; `SessionReuse.ReuseLeaks` is such a run). A request
  refused because its ID is in use ends the request that uses it (`Session.RefusalEndsTheOther`).
* `UnpackAndVerify` goes on after an error, to an index and three slices. It panics exactly when these are out of range or the
  hash kit is unknown, so that its errors for a body behind the end of the buffer and for an unknown kit are never returned
  (`SignedPayload.PanicsIff`). An empty buffer panics, and so does a short one with a large first byte
  (`SignedPayload.ShortBufferPanicsIff`).
* The comment above `MergeKeys` promises to reject short pub keys and collisions inside the source. The code rejects a short
  pub key only if the destination has it, and does not look for collisions inside the source: the merged list has distinct
  pub keys if and only if the destination had and no two different added entries share one
  (`KeyLists.MergeKeepsDistinctPubKeys`). It promises to drop exact duplicates. It drops those that the lookup answers with,
  which are all of them if the destination's pub keys are distinct; if not, it can reject one (`KeyLists.MergePartition`,
  `KeyLists.DuplicateRejected`).
* The comment above `getsetValueIDPair` says that an assignment of an ID to a value leaves the
  ID's own value alone; the code writes both when the value had no ID (`SymbolTable.SetAssigns`).

## Model

| member | source | states |
|---|---|---|
| Bytes.CompareIsLexicographic | ski/ski.support.go:34-49 | the comparison of byte strings is the lexicographic order: a proper prefix is below, and else the first differing byte decides |
| KeyOrder.CompareMeansBefore | ski/ski.support.go:47-77 | of two stored entries the comparison puts first the one with the lower pub key, then the newer, then the lower type, kit and private key |
| KeyOrder.CompareZeroIffEqual | ski/ski.support.go:47-77 | 0 is returned for two entries exactly when all their contents are equal, even where the subtractions wrap |
| KeyOrder.CompareIsAntisymmetric | ski/ski.support.go:47-77 | swapping two stored entries flips the sign of the comparison |
| KeyOrder.CompareIsTransitive | ski/ski.support.go:47-77 | the comparison is transitive on stored entries, strictly when one step is strict: with the two above, a total order |
| KeyOrder.NewerSortsFirstIff | ski/ski.support.go:52-57 | of two entries with one pub key the newer comes first exactly when the difference of their times fits in 64 bits |
| KeyOrder.SortIsTheOnlySortedPermutation | ski/ski.support.go:82-86 | a list is the sorted form of another exactly when it is sorted and a permutation, so the sorting algorithm does not matter |
| Bytes.PrefixesAreContiguous | ski/ski.support.go:329-341 | a key between a prefix and a key that starts with it starts with it, too: only the lower bound needs a look |
| KeyLists.FirstWithKeyAtLowerBound | ski/ski.support.go:359-366 | on a sorted list the entry at the lower bound is the one that a left-to-right scan finds for the key, or there is none |
| KeyLists.FirstWithPrefixAtLowerBound | ski/ski.support.go:329-341 | the same for the first entry whose pub key starts with a prefix |
| KeyLists.NewestFoundByKey | ski/ski.support.go:378-396 | in a sorted list, looking up the pub key of a newest entry finds a newest entry, however often that pub key is repeated |
| KeyLists.WithoutDupesIsStrict | ski/ski.support.go:238-258 | dropping equal neighbours of a sorted list leaves it strictly sorted with the same contents |
| KeyLists.MergePartition | ski/ski.support.go:267-315 | each source entry is in one part: added exactly when its pub key is absent, dropped exactly when the lookup answers with an exact duplicate and the pub key has at least 16 bytes, else rejected; with distinct pub keys in the destination the duplicates are exactly the entries it holds |
| KeyLists.DuplicateRejected | ski/ski.support.go:283-290 | a destination that repeats a pub key: an exact duplicate of its second entry is rejected |
| KeyLists.MergeKeepsDistinctPubKeys | ski/ski.support.go:267-315 | the merged list has distinct pub keys exactly when the destination had and no two different added entries share one |
| KeyringStore.Keyring.ZeroOut | ski/ski.support.go:205-213 | the keyring and its cache are empty, the sorted flag is kept, and an optimized keyring stays one |
| KeyringStore.NewestAfter | ski/ski.support.go:205-396 | after any sequence of optimizing, dropping duplicates, zeroing and merging on a keyring that was sorted or empty, the cache leads to a newest entry |
| KeyringStore.Keyring.Optimize | ski/ski.support.go:221-233 | the keys are a permutation in ascending order, pub keys byte by byte and newer entries first, and the cache names a newest entry exactly when there is one |
| KeyringStore.Keyring.DropDupes | ski/ski.support.go:238-258 | the in-place compaction leaves each content once, in ascending order, and returns how many entries went; a settled cache stays good |
| KeyringStore.Keyring.LowerBound | ski/ski.support.go:329-331 | the binary search returns the first position whose pub key is not below the key |
| KeyringStore.Keyring.FetchKey | ski/ski.support.go:350-375 | sorted or not, the entry returned is the one that a left-to-right scan finds |
| KeyringStore.Keyring.FetchKeyWithPrefix | ski/ski.support.go:320-347 | sorted or not, the entry returned is the first whose pub key starts with the prefix |
| KeyringStore.Keyring.FetchNewestKey | ski/ski.support.go:378-396 | with a good cache or none, no entry is newer than the one returned, and one is returned unless the keyring is empty |
| KeyringStore.Keyring.DetectDupes | ski/ski.support.go:274-302 | the swap-remove loop ends, moves exactly the entries to be added to the front, collects exactly the rejected ones, and finds the newest entry of the merged list |
| KeyringStore.Keyring.MergeKeys | ski/ski.support.go:267-315 | the destination is extended by exactly the added entries, the source keeps exactly the rejected ones, and the cache of an optimized keyring stays good |
| TomeMerge.NothingLost | ski/ski.support.go:502-547 | every (keyring name, entry) pair of both tomes is in the destination or was left in the source |
| TomeMerge.NothingInvented | ski/ski.support.go:502-547 | every pair in the result comes from one of the tomes, and what is left in the source was there |
| TomeMerge.ProblemsIffRejected | ski/ski.support.go:519-546 | the source keyrings left over are those of which an entry was rejected |
| KeyTomeStore.KeyTome.FetchKeyring | ski/ski.support.go:417-442 | sorted by name or not, the keyring returned is the one that a left-to-right scan finds |
| KeyTomeStore.KeyTome.Optimize | ski/ski.support.go:550-555 | the keyrings are a permutation of what they were, their names ascending byte by byte |
| KeyTomeStore.KeyTome.MergeExisting | ski/ski.support.go:513-537 | the loop over the source's keyrings merges each namesake, optimizes the others, and collects those that keep rejected entries |
| KeyTomeStore.KeyTome.MergeTome | ski/ski.support.go:502-547 | conservation of all pairs, a destination with distinct names in ascending order, `Rev` one up, each new keyring optimized and each optimized one kept so, and an empty source exactly when nothing was rejected |
| KeyExport.ExportUsingGuide | ski/ski.support.go:450-494 | the buffer is the marshalled tome of the guided keyrings; asked to report what is missing it fails exactly when something is |
| KeyExport.ExportedNames | ski/ski.support.go:461-487 | the exported keyrings are those of the guide's names: as a whole with their flag and cache if the guide lists no keys, else the entries found, with neither |
| KeyExport.FoundExactly | ski/ski.support.go:468-483 | the exported entries are those a lookup of one of the guide's pub keys finds |
| KeyExport.FoundOnce | ski/ski.support.go:468-483 | distinct pub keys in a guide export each entry once |
| KeyExport.ExportThenImport | ski/ski.support.go:450-547 | exporting by a guide with distinct names and merging the unmarshalled buffer into an empty tome yields exactly the guided keyrings with exactly the entries asked for, and leaves the import source empty |
| Varint.SovIsLength | ski/api.ski.pb.go:2249-2251 | the size computed from the bit length is the number of bytes of the varint, at most 10 |
| Varint.EncodeVarintApiSki | ski/api.ski.pb.go:2022-2032 | the loop writes the varint just before the offset, touches nothing else and returns where it starts |
| Varint.DecodeVarint | ski/api.ski.pb.go:2751-2767 | the shift-and-or loop in a word of any width yields the value cut to that width, or the error, and where it ends |
| Varint.VarintRoundTrip | ski/api.ski.pb.go:2022-2032 | what was written for any uint64 is read back, whatever follows, without overflow |
| Varint.EnumRoundTrip | ski/api.ski.pb.go:2796-2814 | an enum, negative or not, survives sign extension to 64 bits and narrowing to 32 |
| Wire.SkipTree | ski/api.ski.pb.go:3853-3930 | skipping a well-formed field, nested groups included, stops exactly at its end |
| Wire.NextFieldLocal | ski/api.ski.pb.go:2748-2882 | which field is read depends on its own bytes, not on what follows |
| Wire.DecodeAppend | ski/api.ski.pb.go:3294-3416 | decoding goes on behind a front part exactly from the message that the front part decodes to |
| Wire.UnknownFieldIsTransparent | ski/api.ski.pb.go:3396-3411 | for any message, a well-formed unknown field at any field boundary leaves the outcome unchanged |
| Codec.KeyInfoIgnoresUnknown | ski/api.ski.pb.go:2743-2883 | a KeyInfo decodes alike with and without an unknown field |
| Codec.KeyEntryIgnoresUnknown | ski/api.ski.pb.go:3002-3121 | a KeyEntry decodes alike with and without an unknown field |
| Codec.KeyringIgnoresUnknown | ski/api.ski.pb.go:3122-3293 | a Keyring decodes alike with and without an unknown field |
| Codec.SigHeaderIgnoresUnknown | ski/api.ski.pb.go:3417-3595 | a SigHeader decodes alike with and without an unknown field |
| Codec.KeyTomeIgnoresUnknown | ski/api.ski.pb.go:3294-3416 | a KeyTome decodes alike with and without an unknown field of its own |
| Codec.KeyTomeIgnoresNested | ski/api.ski.pb.go:3294-3416 | a KeyTome decodes alike with and without an unknown field inside a keyring, an entry of it, or the info of that |
| Codec.KeyInfoLayout | ski/api.ski.pb.go:1656-1684 | the bytes of a KeyInfo: each field behind its tag, 08, 10, 18 and 22, and no field that is zero |
| Codec.KeyEntryLayout | ski/api.ski.pb.go:1738-1763 | the same for a KeyEntry: tags 0a and 32 |
| Codec.KeyringLayout | ski/api.ski.pb.go:1780-1824 | the same for a Keyring: tags 0a, 12 for each entry in order, 18 and 22 |
| Codec.KeyTomeLayout | ski/api.ski.pb.go:1841-1876 | the same for a KeyTome: tags 08, 12 for each keyring in order, and 18 |
| Codec.SigHeaderLayout | ski/api.ski.pb.go:1893-1931 | the same for a SigHeader: tags 08, 12, 30, 38, 40 and 48 |
| Codec.KeyInfoInto | ski/api.ski.pb.go:2743-2883 | unmarshalling a marshalled KeyInfo into one that holds something: what is on the wire wins, the rest stays |
| Codec.KeyEntryInto | ski/api.ski.pb.go:3002-3121 | the same for a KeyEntry; a nested info is merged into the one already there |
| Codec.KeyringInto | ski/api.ski.pb.go:3122-3293 | the same for a Keyring; entries are added behind those already there |
| Codec.KeyTomeInto | ski/api.ski.pb.go:3294-3416 | the same for a KeyTome; keyrings are added behind those already there |
| Codec.SigHeaderInto | ski/api.ski.pb.go:3417-3595 | the same for a SigHeader |
| Codec.KeyEntriesMerge | ski/api.ski.pb.go:3054-3068 | two marshalled entries one behind the other unmarshal to the two merged, down to the nested info |
| Codec.KeyTomesMerge | ski/api.ski.pb.go:3294-3416 | two marshalled tomes one behind the other unmarshal to the keyrings of both |
| Codec.KeyInfoRoundTrip | ski/api.ski.pb.go:1656-1684 | a marshalled KeyInfo unmarshals to itself |
| Codec.KeyEntryRoundTrip | ski/api.ski.pb.go:1738-1763 | a marshalled KeyEntry, with or without its info, unmarshals to itself |
| Codec.KeyringRoundTrip | ski/api.ski.pb.go:1780-1824 | a marshalled Keyring unmarshals to itself, entries in order |
| Codec.KeyTomeRoundTrip | ski/api.ski.pb.go:1841-1876 | a marshalled KeyTome unmarshals to itself, the whole tree, with any times and enums |
| Codec.SigHeaderRoundTrip | ski/api.ski.pb.go:1893-1931 | a marshalled SigHeader unmarshals to itself |
| CodecLoops.SizeKeyInfo | ski/api.ski.pb.go:2081-2101 | the computed size is the length of what is marshalled |
| CodecLoops.SizeKeyEntry | ski/api.ski.pb.go:2120-2135 | the computed size is the length of what is marshalled |
| CodecLoops.SizeKeyring | ski/api.ski.pb.go:2137-2161 | the computed size is the length of what is marshalled |
| CodecLoops.SizeKeyTome | ski/api.ski.pb.go:2163-2182 | the computed size is the length of what is marshalled |
| CodecLoops.SizeSigHeader | ski/api.ski.pb.go:2184-2210 | the computed size is the length of what is marshalled |
| CodecLoops.MarshalKeyInfo | ski/api.ski.pb.go:1656-1684 | writing backwards fills exactly the bytes of the message before the index and leaves all others |
| CodecLoops.MarshalKeyEntry | ski/api.ski.pb.go:1738-1763 | the same, with the nested info |
| CodecLoops.MarshalKeyring | ski/api.ski.pb.go:1780-1824 | the same, with the entries from last to first |
| CodecLoops.MarshalKeyTome | ski/api.ski.pb.go:1841-1876 | the same, with the keyrings from last to first |
| CodecLoops.MarshalSigHeader | ski/api.ski.pb.go:1893-1931 | the same for a SigHeader |
| CodecLoops.KeyTomeMarshal | ski/api.ski.pb.go:1826-1834 | a buffer of the computed size is filled from end to start, every byte |
| CodecLoops.SkipApiSki | ski/api.ski.pb.go:3853-3930 | the loop with its depth counter returns what the recursive reading of nested groups does, on every byte string; a success is past the start |
| CodecLoops.ReadField | ski/api.ski.pb.go:2750-2882 | the tag loop, the wire type checks and the skipping together read the next field or fail with its error |
| CodecLoops.UnmarshalKeyInfo | ski/api.ski.pb.go:2743-2883 | on every byte string the loop ends and yields the message or the error that field-by-field decoding defines |
| CodecLoops.UnmarshalKeyEntry | ski/api.ski.pb.go:3002-3121 | the same for a KeyEntry |
| CodecLoops.UnmarshalKeyring | ski/api.ski.pb.go:3122-3293 | the same for a Keyring |
| CodecLoops.UnmarshalKeyTome | ski/api.ski.pb.go:3294-3416 | the same for a KeyTome |
| CodecLoops.UnmarshalSigHeader | ski/api.ski.pb.go:3417-3595 | the same for a SigHeader; and what the message holds after an error, to the bits of a value that was cut off |
| SignedPayload.PayloadPacker.ResetSession | ski/ski.support.go:847-887 | the packer is ready exactly when the session has a signing key with a crypto kit, the keyring is named, and the hash kit is known |
| SignedPayload.PayloadPacker.PackAndSign | ski/ski.support.go:893-982 | the buffer holds the frame, its digest and its signature where the ranges returned say, and each way to fail has its error |
| SignedPayload.DigestKept | ski/ski.support.go:935-979 | the stored digest is intact exactly when the signature's bytes from the hundredth on are the same as the digest's, so always for a signature of at most 99 bytes |
| SignedPayload.HeaderEndIff | ski/ski.support.go:1058-1058 | what is computed for the end of the header, for every two length bytes; it is right exactly for sizes below 65536 that do not carry into a set bit, and too small otherwise |
| SignedPayload.PrefixDiffers | ski/ski.support.go:1064-1069 | no proper prefix of a marshalled SigHeader decodes to that SigHeader |
| SignedPayload.PayloadUnpacker.UnpackAndVerify | ski/ski.support.go:1039-1129 | on every buffer a payload is handed out exactly when the buffer holds it in a frame whose signature the signer's key verifies for the digest of all before it; the outcome is that, an error, or a panic; only the kit of what was handed out is new in the cache then |
| SignedPayload.VerifiedIffOpens | ski/ski.support.go:1039-1129 | the same for the outcome as a function of the buffer |
| SignedPayload.RefusedIff | ski/ski.support.go:1050-1117 | a buffer that causes no panic is refused exactly when it is under 50 bytes, its SigHeader ends too late or does not decode, or the signature does not verify |
| SignedPayload.PanicsIff | ski/ski.support.go:1072-1120 | it panics exactly when the body, by the unwrapped sum of the sizes, reaches the last byte or beyond, or the signature does not fit behind it, or the kit is unknown: the errors for the first and the last are never returned |
| SignedPayload.ShortBufferPanicsIff | ski/ski.support.go:1050-1083 | a buffer under 50 bytes is refused unless it is empty or its first byte exceeds the number of bytes behind it; then it panics |
| SignedPayload.UnpackInvertsPack | ski/ski.support.go:893-1129 | a packed payload is unpacked to the same header, body, codec, kit, digest, signature and signer if and only if the frame is long enough and the size of the SigHeader is read back |
| SignedPayload.SendAndReceive | ski/ski.support.go:893-1129 | packer and unpacker joined, with a SigHeader under 510 bytes and a signature of 9 to 99: everything comes back and the digest is intact |
| SignedPayload.LostAt510 | ski/ski.support.go:1058-1069 | a SigHeader of 510 bytes: whatever the keys, hashers and signature, the payload does not come back |
| IcyStream.AfterAppend | amp/apps/amp.app.shoutcast/stream.go:138-163 | the machine that reads one byte at a time can stop and go on anywhere |
| IcyStream.Stream.Read | amp/apps/amp.app.shoutcast/stream.go:138-163 | for every connection: the call reads once and then on to the end of a block that its buffer has no room for; it returns the audio of all that, and the error of the last read that failed, except that the end of the stream inside a block is an unexpected one; without an error it ends where the bytes lead if and only if it can stay in step |
| IcyStream.Stream.ReadRest | amp/apps/amp.app.shoutcast/stream.go:182-193 | the rest of a block is read in as many reads as it takes, up to the first error, which is returned |
| IcyStream.Stream.ExtractMetadata | amp/apps/amp.app.shoutcast/stream.go:171-209 | the extent of the block, the bytes read for it, and the metadata that is kept from it |
| IcyStream.RunDeinterleaves | amp/apps/amp.app.shoutcast/stream.go:138-163 | over any run without an error: every call is in step if and only if after every call the bytes returned are the stream with every block deleted and the position is right |
| IcyStream.RunToError | amp/apps/amp.app.shoutcast/stream.go:138-163 | the call that ends a run with an error still returns only audio |
| IcyStream.BlockReturnedAsAudio | amp/apps/amp.app.shoutcast/stream.go:174-179 | two calls of `Read` on a scripted connection: a short read into a large buffer, and the byte of a block that the next call returns as audio |
| CellSync.WithoutRemoves | amp/apps/amp.app.space/app.spaces.db.go:438-451 | removing a pin removes it and no other |
| CellSync.StepKeeps | amp/apps/amp.app.space/app.spaces.db.go:432-663 | each of the steps of commits and pins keeps the invariant |
| CellSync.NoLostUpdate | amp/apps/amp.app.space/app.spaces.db.go:453-663 | in every interleaving, what is stored is in a synced pin's snapshot, pushed, queued or owed to it; nothing reaches a pin twice; the cell's revision counts the commits past storing, and the one that a pin notes is not ahead of its snapshot |
| CellHistory.CommitFate | amp/apps/amp.app.space/app.spaces.db.go:453-490 | in every interleaving a commit that began keeps its transaction, is in the database exactly when it was stored, and failed exactly when it met an error other than a conflict: one that is over without such an error was stored |
| CellHistory.RetriedUntilStored | amp/apps/amp.app.space/app.spaces.db.go:482-487 | after any number of conflicts a commit can be stored, as if there had been none |
| CellHistory.WrittenKeeps | amp/apps/amp.app.space/app.spaces.db.go:464-480 | a commit writes each operation that has an edit, as often as it is there, and no other |
| CellHistory.WrittenAppend | amp/apps/amp.app.space/app.spaces.db.go:464-480 | what is written keeps its order, and leaving one out does not end it |
| CellHistory.DbHoldsWhatWasStored | amp/apps/amp.app.space/app.spaces.db.go:459-488 | in every interleaving each key of the database has the last value that a stored commit wrote for it, or else the one it had; and what was written are the operations with an edit of the commits stored |
| CellHistory.RunHistory | amp/apps/amp.app.space/app.spaces.db.go:577-606 | whatever goes on, what a pin was pushed is neither taken back nor reordered, its snapshot stays, and until a push fails it is pushed what it was sent in that order |
| CellHistory.NothingAfterTheLoop | amp/apps/amp.app.space/app.spaces.db.go:586-606 | once a pin has left its loop, on closing or because a push failed, nothing is pushed to its client in any continuation |
| CellHistory.RemovedForGood | amp/apps/amp.app.space/app.spaces.db.go:438-451 | a pin that was removed from the cell's list is in it in no continuation; the others stay |
| CellProgress.CanBeQuiet | amp/apps/amp.app.space/app.spaces.db.go:432-606 | after any run all commits can be finished without a failure and a pin that is neither stopped nor closing can be brought up to date: full queues block nothing for good, if pins that have stopped begin to close |
| CellViews.PlainConverges | amp/apps/amp.app.space/app.spaces.db.go:577-663 | with plain transactions every quiet pin shows the stored map, whatever the order of delivery |
| CellViews.CrossingDiffers | amp/apps/amp.app.space/app.spaces.db.go:464-479 | with transactions that are not plain there is a schedule after which a quiet pin does not show the stored map |
| CellViews.ViewsConverge | amp/apps/amp.app.space/app.spaces.db.go:453-663 | all pins converge in all schedules if and only if the transactions are plain |
| SymbolTable.Store.GetSetValueIDPair | amp/badger/symbol_table/table.go:74-169 | the flags of the code write exactly the assignments that the case table does, for every combination of arguments |
| SymbolTable.SymbolInvertsID | amp/badger/symbol_table/table.go:171-195 | the ID of a value resolves to that value; the zero ID and IDs not yet issued to nothing |
| SymbolTable.GetKeeps | amp/badger/symbol_table/table.go:51-54 | an ID that is returned resolves to its value; it is the one known before or the next to be issued; all others stay, and nothing is written unless asked |
| SymbolTable.SequentiallyStable | amp/badger/symbol_table/table.go:51-54 | over any sequence of calls no value changes its ID and no two values share one |
| SymbolTable.SetAssigns | amp/badger/symbol_table/table.go:56-59 | the value gets the ID; the ID resolves to the value exactly when the value had no ID, or the ID did so before; every other ID, the value's old one included, and every other value are as before |
| SymbolCalls.StepKeeps | amp/badger/symbol_table/table.go:74-169 | every step keeps the invariant, what was returned and what IDs resolve to |
| SymbolCalls.IDsArePermanent | amp/badger/symbol_table/table.go:74-195 | in every interleaving a returned ID resolves to its value then and ever after, and distinct values never get one ID |
| SymbolCalls.OnlyRetriesReassign | amp/badger/symbol_table/table.go:140-162 | a step changes the ID of a value exactly when it is a retry for a value that has one |
| SymbolCalls.StableIffNoOverlap | amp/badger/symbol_table/table.go:140-162 | pending calls can go on in every order without changing an ID if and only if none is for a value with an ID and no two are for one value |
| SymbolCalls.AloneIsSequential | amp/badger/symbol_table/table.go:74-169 | a call that runs alone leaves and returns what the sequential method does |
| SymbolCalls.TwoIDsForOneValue | amp/badger/symbol_table/table.go:158-161 | two overlapping calls for one value return different IDs, and the first is replaced |
| Session.StepKeeps | amp/host/host.go:313-582 | each step of the inbox loop, of the completions and of the closers keeps the invariant |
| Session.ClosedAtMostOnce | amp/host/host.go:326-349 | in every interleaving cancel is closed at most once, a closed op is not in the table, the swap of the closed flag never fails, and references are counted exactly |
| Session.NeverStoredAgain | amp/host/host.go:571-582 | an op taken out of the table is never in it again, and what is closed stays closed |
| Session.ShutdownClosesAll | amp/host/host.go:313-324 | when the shutdown has returned the table is empty, and at rest every registered op was closed exactly once |
| SessionLeaks.SafeIffUnused | amp/host/host.go:498-582 | while a new op waits for its transaction, completions and closeOps leave it in the table, whatever they do, if and only if no earlier request with its ID was handed to its app |
| SessionLeaks.LeaksIffReused | amp/host/host.go:498-582 | after any run, a message taken in can leave a reference to its transaction at rest if and only if it is to be committed, has no parent or another open one, and has the nil ID or that of an earlier request that was handed to its app |
| SessionLeaks.CarefulSessionBalances | amp/host/host.go:455-582 | a whole session without such messages leaves no reference at rest |
| SessionLeaks.CanRest | amp/host/host.go:313-349 | past the registration of a request, every session can be brought to rest |
| Session.LoopEnds | amp/host/host.go:455-527 | in every continuation, once a closeOp of the loop is through or the loop has gone on, the requests with the ID of its message are out of the table and closed or about to be: the one the client names, the new one that failed, or the one whose ID was used again; and it takes out no other op |
| Session.CompletionEnds | amp/host/host.go:309-349 | in every continuation, once the closeOp of a completion is through, its request is out of the table and closed or about to be |
| Session.RefusalEndsTheOther | amp/host/host.go:520-526 | in particular, a request refused for its ID ends the request that uses the ID |
| SessionReuse.ReuseLeaks | amp/host/host.go:508-513 | a run with a reused ID that leaves a reference at rest |

## Left out

- SignedPayload.Unpack: a slice bound between the buffer's length and its capacity counts as out of range; what is written to the result before a failure is not modelled; nor are buffers of 4 GB and more, whose length the source cuts to 32 bits.
- SignedPayload.PayloadPacker.PackAndSign: the mutex of a threadsafe packer is not modelled, nor the `Extra` range; the buffer must fit in an int.
- CodecLoops.UnmarshalKeyTome: messages are values; what a failing decoder has filled in is given for the SigHeader only, and a nil slice against an empty one, and nil keyrings or entries, are not told apart.
- KeyringStore.Keyring.ZeroOut: the wiping of private key bytes, and that slices share them, is not modelled.
- KeyringStore.Keyring.MergeKeys: a keyring merged with itself is not modelled; entries carry their info and non-negative times and enums.
- KeyTomeStore.KeyTome.MergeTome: a tome merged with itself, and keyrings shared between two tomes, are not modelled.
- KeyExport.ExportUsingGuide: a guide is a list of names and pub keys; guide entries without info are not modelled.
- IcyStream.Stream.ExtractMetadata: the metadata is the block as it was when read; that it shares the caller's buffer, its parsing and the callback are not modelled, and a connection that returns nothing for ever is not one of its scripts. A negative metaint is excluded.
- CellSync.NoLostUpdate: keys are tuples, not the 80 bytes of the source; a transaction that is too large fails like any other that is not a conflict; `removeSync` is a step of a closing pin only (the source registers it with the context library, which is not part of this model).
- CellViews.ViewsConverge: every operation is an upsert, as `commitTx` treats it, and the database is one that such commits wrote.
- SymbolCalls.IDsArePermanent: commits fail by conflict only, IDs are issued once and from 1 on, and `SetSymbolID` is not called meanwhile; after a commit that fails otherwise the source returns an ID that was not stored.
- SymbolTable.Store.GetSetValueIDPair: a failing issuer (the source panics) and IDs wider than their stored form are not modelled.
- Session.ShutdownClosesAll: that the waits of the loop and of the lock end is not proved; the messages sent on closing, the closing of a pin's context and the internal requests of apps (which have no ID) are not modelled.
- SessionLeaks.LeaksIffReused: a completion of a request may come at any time after it was handed to its app, and more than once, whatever the app; a parent is ready only if it was handed to its app.
- Sorting is a function that is the only sorted permutation, in place of the algorithm of Go's sort package.
- `KeyTomeMgr`, its lock, and its unmarshalling into a tome that is not empty.
- `KeyEntry.EqualTo`, `GenerateFork`, and the generation of keys.
- The ciphers, signatures and hashers themselves.
- The other generated messages, which repeat the pattern of those here.
- Mounting and unmounting of spaces and cells, idle closing, and what the context and database libraries do inside.
- `Open` and `IcyConnWrapper` of the stream, and all other apps, servers and user interfaces.
