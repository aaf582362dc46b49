# A verified model of the backup engine's core

This project models, in Dafny, the core of a backup engine. The engine
snapshots a source volume, walks its files, archives the entries a base full
backup does not already hold, and streams the archive through
compression and encryption layers to a destination. Alongside the archive it
keeps a manifest: a salted set of 16-byte keys, one per archived entry, which
later differential backups use as a filter.

The model covers six parts of the engine. Each file of the model follows one
part:

- `manifest.dfy` (module `Manifests`) — the manifest.
  - Its value is `ManifestData`, with `Insert` and `Contains`.
  - Its text form is a header line `1 <variant> <version> <time> <mem> <lanes> <hex salt>`, then one lowercase hex key per line in ascending key order.
  - `Parse` is the function that `deserialize` computes.
  - The `Manifest` class holds the struct's fields. Its methods `Deserialize`, `Serialize` and `Insert` are the loops and updates of the original, each proved against those functions.
  - The Argon2 hash behind `gen_key` is a parameter `kdf`: any deterministic function of the entry, the salt and the hash settings.
- `text.dfy` (`Text`) and `hex.dfy` (`Hex`) — the pieces of Rust's standard library and of the `hex` crate that the manifest format depends on: `split(' ')`, `trim`, `read_line`, the decimal text of a `u32` and its parsing, and base16 (section 8 of RFC 4648).
- `io.dfy` (`ChunkIo`) — `WriteChunker` and `Chunk`, which cut the archive stream into numbered fixed-size chunks for upload. The upload queue is the sequence `sent`, which `send_chunk` appends to.
- `source.dfy` (`Source`) — the file enumerator `Files`.
  - The snapshot is a finite tree of entries. Each directory's listing is the sequence `read_dir` returns, with its failures in place.
  - `WalkSeq` is the depth-first, pre-order walk. `Files.NextFile` is proved to yield exactly that walk, one item per call, using a cursor and a stack of suspended cursors as the original does.
- `pipeline.dfy` (`Pipeline`) — the identity compressor and identity cryptor over an upload target.
  - Both pass every call straight through and give back the wrapped writer when finalized.
  - The target is a stand-in that logs the bytes it takes.
- `backup.dfy` (`Backup`) — one backup run:
  - the choice of the base full backup and of the backup kind;
  - the filter-and-insert loop of `upload_archive` (the tar builder becomes a log of `Record`s);
  - the end of the run: the snapshot is torn down, the layers are finalized, and the manifest is published.

`wrappers.dfy` holds `Option`, `Result` and `Outcome`.

The run's inputs from the outside world are parameters:
- the clock (`now`) and the host name;
- the cron parser (`parse`, yielding a `Schedule` reduced to `nextAfter`);
- the key derivation (`kdf`) and the random salt (`randomSalt`);
- the outcome of taking the snapshot.

The destination and the snapshot are small classes that answer as their
constructor parameters say.

Two points where the model takes a side:

- **Base selection follows backup.rs:71.** The latest full backup becomes the base when the schedule's next full backup after it is still later than now. Otherwise the run makes a new full backup.
- **The entry follows backup.rs:221.** `Entry` is the five-field form that backup.rs builds: path, modification time, uid, gid, mode. manifest.rs:172 declares a path-only constructor. Either way the entry reaches the manifest only through the key derivation `kdf`.

## Model

| member | source | states |
|---|---|---|
| Text.Split | src/manifest.rs:54 | `split(' ')` yields at least one piece, no piece contains the separator, and the pieces joined by the separator are the line again |
| Text.TrimStrips | src/manifest.rs:55 | `trim` leaves a piece of the field with only whitespace before and after it, and that piece neither starts nor ends with whitespace |
| Text.SplitTrimJoin | src/manifest.rs:54-56 | a line of whitespace-free fields joined by single spaces and ended by a line feed splits and trims back into exactly those fields |
| Text.ReadLine | src/manifest.rs:51 | `read_line` returns a prefix up to and including the first line feed and leaves the rest; the two parts concatenate to the input |
| Text.ReadLineOf | src/manifest.rs:119 | a line without a line feed, ended by one, is read back whole with the rest of the text left over |
| Text.LinesCover | src/manifest.rs:51 | the lines `read_line` returns one call after another are non-empty, all but the last end in a line feed, and together they are the whole text |
| Text.Decimal | src/manifest.rs:119 | the `Display` text of a number is a non-empty string of decimal digits |
| Text.ParseDecimal | src/manifest.rs:60-65 | `parse::<u32>` of the decimal text of a `u32` gives the number back |
| Text.ParseU32 | src/manifest.rs:60-65 | `parse::<u32>` accepts an optional `+` and then only digits, with the value of those digits; text of digits alone is accepted exactly when its value is below 2^32 |
| Hex.DigitValue | src/manifest.rs:93 | a character has a hex value exactly when it is a digit or a letter a-f of either case, and that value is below 16 |
| Hex.DigitValueCases | src/manifest.rs:93 | a lowercase digit has the value `encode` writes it for; a letter A-F has the value of its lowercase counterpart |
| Hex.Encode | src/manifest.rs:118 | `hex::encode` writes two lowercase hex digits per byte |
| Hex.Decode | src/manifest.rs:67 | a successful `hex::decode` yields half as many bytes as it read characters |
| Hex.DecodeEncode | src/manifest.rs:118-121 | decoding what `encode` wrote gives the bytes back |
| Hex.EncodeDecode | src/manifest.rs:93 | lowercase hex text that decodes is exactly the encoding of its bytes |
| Hex.EncodePlain | src/manifest.rs:118 | encoded text holds no whitespace, so `trim` leaves it untouched |
| Manifests.Algorithm.FromU32 | src/manifest.rs:212-217 | succeeds exactly on tag 1 and then gives the tag back; any other tag is "invalid algorithm" |
| Manifests.Variant.FromU32 | src/manifest.rs:61 | every variant's own tag yields that variant; a success carries the tag read; any other tag fails with the model's `InvalidVariant`, which stands for the decoding error argon2 reports |
| Manifests.Version.FromU32 | src/manifest.rs:62 | every version's own tag yields that version; a success carries the tag read; any other tag fails with the model's `InvalidVersion`, which stands for the decoding error argon2 reports |
| Manifests.ManifestData.Insert | src/manifest.rs:128-136 | after `insert(e)`, `contains(e)` holds; everything contained before still is; exactly the entries with `e`'s key are added; only the key set changes |
| Manifests.InsertIdempotent | src/manifest.rs:128-131 | inserting the same entry twice equals inserting it once |
| Manifests.ManifestData.Contains | src/manifest.rs:133-136 | a manifest with no keys contains no entry |
| Manifests.KeyIgnoresStoredKeys | src/manifest.rs:138-158 | `gen_key` depends on the salt and the hash settings alone, not on the stored keys, so manifests agreeing on salt, settings and keys agree on `contains` |
| Manifests.BelowAsymmetric | src/manifest.rs:190 | the derived key order is asymmetric |
| Manifests.BelowTransitive | src/manifest.rs:190 | the derived key order is transitive |
| Manifests.BelowTotal | src/manifest.rs:190 | any two distinct keys are ordered one way or the other |
| Manifests.LeastExists | src/manifest.rs:120 | every non-empty key set has a least key, the first one a `BTreeSet` yields |
| Manifests.LeastUnique | src/manifest.rs:120 | the least key of a set is unique |
| Manifests.SortedKeys | src/manifest.rs:120-123 | the keys in iteration order: every key of the set exactly once, strictly ascending |
| Manifests.SerializeStep | src/manifest.rs:120-122 | writing the least remaining key's line leaves exactly the lines of the other keys to write |
| Manifests.Pop | src/manifest.rs:161-165 | `pop` fails with "not enough values" exactly on an empty vector, and otherwise splits off the last element |
| Manifests.TakeField | src/manifest.rs:58-60 | the front field is taken, or "not enough values" when none is left |
| Manifests.TakeFieldIsPop | src/manifest.rs:58-67 | taking the front field is popping the reversed vector, and the remainder is the reversal of the rest |
| Manifests.Number | src/manifest.rs:60-65 | `parse()?` succeeds exactly when the text is a `u32`, with that value; otherwise it is a parse error |
| Manifests.TakeNumber | src/manifest.rs:60-65 | `pop(..)?.parse()?` yields the first field's number and the rest, "not enough values" on no field, and a parse error on a bad one |
| Manifests.DecodeKey | src/manifest.rs:93-97 | a field is accepted exactly when it decodes to 16 bytes; a hex error and a wrong length each give their own error |
| Manifests.ParseTags | src/manifest.rs:60-62 | a success read tag 1, the variant's tag and the version's tag in that order; a first field other than 1 fails |
| Manifests.ParseCosts | src/manifest.rs:63-65 | a success read time cost, memory cost and lanes in that order |
| Manifests.ParseSalt | src/manifest.rs:67-71 | the salt is accepted exactly when the field is present and decodes to 16 bytes |
| Manifests.ParseHeaderFields | src/manifest.rs:53-85 | a parsed header has at least seven fields carrying tag 1 and every setting and the salt of the result, with no keys; fewer than seven fields fail |
| Manifests.ShortHeaderFields | src/manifest.rs:58-67 | fewer than seven fields end in "not enough values" exactly when every field present is a `u32` and the tags among them are accepted |
| Manifests.ParseHeader | src/manifest.rs:53-56 | a parsed header line has no keys and at least seven space-separated fields; a line of fewer fields gives "not enough values" exactly when its fields are accepted |
| Manifests.ParseKeyLines | src/manifest.rs:87-104 | a successful key loop only adds keys and changes nothing else of the manifest; a failure is a bad key length or a hex error |
| Manifests.Parse | src/manifest.rs:46-107 | a header that fails fails the whole parse with its error; an empty text is a parse error |
| Manifests.NextKeyLine | src/manifest.rs:87-104 | one pass of the key loop: a bad first line ends the parse with its error; a good one inserts its key and leaves the rest of the lines |
| Manifests.HeaderFieldsComplete | src/manifest.rs:53-85 | fields carrying a manifest's tags, costs and salt parse to that manifest with no keys |
| Manifests.HeaderFieldsBack | src/manifest.rs:54-56 | the written header line splits and trims back into its seven fields |
| Manifests.HeaderFieldsValues | src/manifest.rs:112-119 | each written header field reads back as the value it was written from |
| Manifests.HeaderRoundTrip | src/manifest.rs:53-85 | parsing the written header line gives the manifest's settings and salt |
| Manifests.KeyLineList | src/manifest.rs:120-123 | one line per key, in order, each the key's hex text and a line feed |
| Manifests.LinesOfKeyLines | src/manifest.rs:87-92 | reading the written key lines one by one gives exactly those lines |
| Manifests.KeyLineDecodes | src/manifest.rs:93-103 | each written key line trims and decodes back to its key |
| Manifests.KeyLinesRoundTrip | src/manifest.rs:87-104 | parsing the lines of a sequence of keys adds exactly those keys to the manifest |
| Manifests.SerializedHeader | src/manifest.rs:119 | the first line of the serialized text is the header line; the rest are the key lines |
| Manifests.BodyRoundTrip | src/manifest.rs:87-104 | the key lines of a set, read into a manifest with no keys, give it exactly that set |
| Manifests.RoundTrip | src/manifest.rs:227-257 | `deserialize(serialize(m)) == m` for every salt, setting and key set |
| Manifests.SerializedLines | src/manifest.rs:109-126 | one header line led by tag 1, then one line of 32 lowercase hex digits per key, strictly ascending, covering the key set exactly |
| Manifests.RejectsUnknownAlgorithm | src/manifest.rs:60 | a first header field that is not tag 1 is refused |
| Manifests.RejectsShortHeader | src/manifest.rs:58-67 | a header of fewer than seven fields is refused, with "not enough values" exactly when every field present is a `u32` and the tags among them are accepted |
| Manifests.KeyLinesParsed | src/manifest.rs:87-104 | a successful key loop changed only the key set, added exactly the decoded keys, and every line decoded to 16 bytes |
| Manifests.HeaderShape | src/manifest.rs:53-85 | a header that parses has seven fields carrying tag 1 and the result's settings and salt |
| Manifests.ParsedHeader | src/manifest.rs:53-85 | a successful `deserialize` took its settings and salt from the header line |
| Manifests.ParsedKeys | src/manifest.rs:87-104 | a successful `deserialize` read only lines that decode to 16 bytes, and its key set is exactly their keys |
| Manifests.SplitParse | src/manifest.rs:46-107 | a text that parses has a header that parses, with no keys, followed by key lines that parse |
| Manifests.RejectsBadSalt | src/manifest.rs:67-71 | a salt that does not decode to 16 bytes is refused |
| Manifests.RejectsBadKeyLine | src/manifest.rs:93-97 | a key line that does not decode to 16 bytes is refused |
| Manifests.RejectsBlankLine | src/manifest.rs:93-97 | a blank key line is refused |
| Manifests.Manifest.New | src/manifest.rs:31-44 | an empty key set, variant Argon2i, version 0x13, time cost 3, memory cost 1 << 18, 8 lanes, the given salt; nothing is contained |
| Manifests.Manifest.FromData | src/manifest.rs:76-84 | the new object holds exactly the given value |
| Manifests.Manifest.Deserialize | src/manifest.rs:46-107 | the loop over the lines fails exactly when `Parse` fails, with its error, and otherwise yields a new manifest holding `Parse`'s value |
| Manifests.Manifest.ReadKeys | src/manifest.rs:87-104 | the loop over the lines after the header ends as `ParseKeyLines` does: it passes with that function's manifest as the new value, or fails with its error |
| Manifests.Manifest.Serialize | src/manifest.rs:109-126 | the loop over the keys writes exactly `Serialized` of the manifest |
| Manifests.Manifest.Insert | src/manifest.rs:128-131 | the new value is the old one with the entry inserted, and the entry is contained |
| Manifests.Manifest.Contains | src/manifest.rs:133-136 | a manifest with no keys contains no entry |
| ChunkIo.Chunk.constructor | src/io.rs:77-83 | the chunk holds its index and data, unread |
| ChunkIo.ChunksNumbered | src/io.rs:85-87 | the chunks a chunker queued report, through `index`, the numbers 0, 1, 2, ... in queue order |
| ChunkIo.Chunk.Len | src/io.rs:89-91 | the whole payload's length before the chunk is polled, zero after |
| ChunkIo.Chunk.Poll | src/io.rs:98-106 | the first poll yields the whole payload, every later poll yields nothing |
| ChunkIo.ChunkLayout | src/io.rs:54-61 | byte `r` of chunk `q` is byte `q * limit + r` of the stream when every chunk but the last is full |
| ChunkIo.FullLength | src/io.rs:54-56 | full chunks hold `limit` bytes each in the stream |
| ChunkIo.WriteChunker.constructor | src/io.rs:22-30 | nothing written, empty buffer, index 0, nothing sent; the invariant holds |
| ChunkIo.WriteChunker.SendChunk | src/io.rs:32-38 | the buffer becomes a new unread chunk with the next index at the end of the queue; the buffer is emptied |
| ChunkIo.WriteChunker.Write | src/io.rs:51-63 | keeps the invariant: buffer within the limit, indices 0, 1, 2, ..., every sent chunk full, and chunks followed by the buffer equal to all bytes accepted. A full buffer is sent first; then as many bytes as fit are taken (at least one when the limit and the input are non-zero) and counted |
| ChunkIo.WriteChunker.Flush | src/io.rs:65-67 | succeeds and changes nothing |
| ChunkIo.WriteChunker.Finish | src/io.rs:40-47 | one last chunk, possibly short or empty, carries the buffer and the next index; afterwards the chunks alone are exactly the bytes accepted |
| ChunkIo.PayloadsAppend | src/io.rs:33 | queueing a chunk appends its payload to the stream |
| ChunkIo.FullAfterSend | src/io.rs:54-56 | sending a full buffer keeps every chunk full |
| Source.AtUnique | src/source/mod.rs:188-243 | in a tree whose listings have distinct names, a path names at most one entry |
| Source.NodeItem | src/source/mod.rs:52-71 | an entry without metadata reports its failure; a file or symlink reports itself; a directory reports itself when it can be listed and its listing failure otherwise; any other kind reports nothing |
| Source.WalkNode | src/source/mod.rs:38-73 | nothing the walk reports for an entry is of a kind other than directory, file or symlink |
| Source.WalkSeq | src/source/mod.rs:38-73 | nothing the walk reports for a listing is of a kind other than directory, file or symlink |
| Source.AtAncestor | src/source/mod.rs:63-71 | every proper prefix of an entry's path names a directory the walk enters |
| Source.WalkComplete | src/source/mod.rs:38-73 | every entry of the tree is reported, at its path, with its failure if it has one |
| Source.WalkSound | src/source/mod.rs:38-73 | everything reported, apart from a failed listing, is the report for some entry of the tree at its path |
| Source.WalkPaths | src/source/mod.rs:60-70 | every reported path lies below the listed directory, under one of its entries' names |
| Source.WalkDistinct | src/source/mod.rs:188-243 | no path is reported twice, so with completeness every entry is reported exactly once |
| Source.WalkPreOrder | src/source/mod.rs:63-71 | every entry more than one level deep is reported after its parent directory |
| Source.NothingBelowLeaf | src/source/mod.rs:59-61 | nothing is reported below a file, a symlink (never followed) or a directory that cannot be read or listed |
| Source.ReportedAlone | src/source/mod.rs:52-67 | a file, a symlink, or an entry whose metadata or listing fails is reported alone |
| Source.ReportedBefore | src/source/mod.rs:63-71 | a directory that is entered is reported before everything in its listing |
| Source.NotReported | src/source/mod.rs:57-71 | an entry of any other kind is skipped |
| Source.PendingFirst | src/source/mod.rs:40-41 | the rest of a listing is its first entry's items, then the items of the entries after it |
| Source.StackedPush | src/source/mod.rs:68-69 | pushing a cursor on the stack puts its items ahead of the ones already suspended |
| Source.Files.constructor | src/source/mod.rs:28-36 | a fresh enumerator over the base listing has the whole walk still to yield (none for an empty base) |
| Source.Files.Open | src/source/mod.rs:28-36 | an unlistable base directory fails; otherwise the new enumerator has the whole walk to yield |
| Source.Files.NextFile | src/source/mod.rs:38-73 | yields the first item still to come and removes it; yields nothing exactly when nothing is left, once the current listing and every suspended one are exhausted |
| Source.Files.Advance | src/source/mod.rs:39-72 | one pass of the loop yields at most the next item still to come and removes it; a pass that yields nothing brings the loop closer to its end |
| Source.Files.Visit | src/source/mod.rs:52-71 | one entry's report, with a directory's listing taken up and the current one suspended; nothing changes for a skipped entry |
| Source.Files.Next | src/source/mod.rs:79-81 | `Iterator::next` is `next_file` |
| Pipeline.IdentityCryptor.constructor | src/encryption/identity.rs:12-16 | wraps the given target; nothing accepted yet |
| Pipeline.IdentityCryptor.Write | src/encryption/identity.rs:19-21 | one write of the same bytes to the target, whose answer is returned; the target holds exactly the bytes reported written |
| Pipeline.IdentityCryptor.Flush | src/encryption/identity.rs:23-25 | one flush of the target, whose answer is returned |
| Pipeline.IdentityCryptor.Finalize | src/encryption/identity.rs:28-31 | gives back exactly the target it was made with |
| Pipeline.IdentityCompressor.constructor | src/compression/identity.rs:12-16 | wraps the given cryptor; nothing accepted yet |
| Pipeline.IdentityCompressor.Write | src/compression/identity.rs:19-21 | one write of the same bytes to the cryptor, whose answer is returned; the target gains exactly the bytes reported written |
| Pipeline.IdentityCompressor.Flush | src/compression/identity.rs:23-25 | one flush of the cryptor; the target's bytes are unchanged |
| Pipeline.IdentityCompressor.Finalize | src/compression/identity.rs:28-31 | gives back exactly the cryptor it was made with |
| Pipeline.CreatePipeline | src/backup.rs:176-189 | the identity compressor over the identity cryptor over the given target, with nothing accepted |
| Pipeline.Delivers | src/compression/identity.rs:8-21 | the target holds exactly the bytes the compressor reported written, in order, after what it held before |
| Backup.FullBackups | src/backup.rs:56-59 | keeps exactly the full backups of the listing |
| Backup.InsertByTimeSorted | src/backup.rs:61 | inserting into a time-sorted sequence keeps it sorted and adds exactly the one element |
| Backup.SortByTimeSorted | src/backup.rs:61 | `sort_by` on timestamps orders by time and is a permutation |
| Backup.Latest | src/backup.rs:61-63 | the latest backup is one of the listing and no backup of it is later |
| Backup.LatestIsLastOfLatest | src/backup.rs:61-63 | of several equally late backups, the latest is the last listed |
| Backup.SortedLast | src/backup.rs:61-63 | `pop` after the stable sort takes exactly that latest backup |
| Backup.LastFullBackup | src/backup.rs:49-81 | no base for a full job; an unparsable schedule and a failed listing end the run with their errors |
| Backup.BaseIsLatestFull | src/backup.rs:56-77 | a chosen base is a full backup of the listing with the greatest timestamp, and the schedule's next full backup after it is later than now |
| Backup.NoFullNoBase | src/backup.rs:63-67 | a differential job with no full backup has no base and makes a full backup |
| Backup.BaseIffScheduleAhead | src/backup.rs:69-77 | the latest full backup is the base exactly when the schedule's next full backup after it is later than now |
| Backup.TargetKind | src/backup.rs:92-96 | differential exactly when the job is differential and a base was chosen |
| Backup.RunKind | src/backup.rs:49-96 | a run is differential exactly when the job is differential, the listing holds a full backup, and the schedule's next full backup after the latest one is later than now |
| Backup.Step | src/backup.rs:214-253 | a pass fails exactly on a failed walk item or a missing modification time, with that error; an archived item appends its record and inserts its entry; any other item changes nothing |
| Backup.Upload | src/backup.rs:214-254 | records are only appended, keys only added, nothing else of the manifest changes, and a failure is a walk failure or a missing modification time |
| Backup.UploadFails | src/backup.rs:214-221 | the upload fails exactly when the walk reports a failure or an entry without a modification time |
| Backup.UploadOutcome | src/backup.rs:214-254 | a successful upload adds to the archive exactly the archived items' records, in walk order, and to the manifest exactly their keys; nothing else of the manifest changes |
| Backup.KeysUnderSameSalt | src/backup.rs:237-252 | the keys of the archived entries depend only on the manifest's salt and settings, not on its keys |
| Backup.RecordsFromArchived | src/backup.rs:223-254 | every record comes from an item that is not filtered, not bad, and is a directory, file or symlink |
| Backup.ArchivedRecorded | src/backup.rs:234-253 | every archived item is recorded and its key is in the new manifest |
| Backup.FilteredNotArchived | src/backup.rs:223-229 | with distinct paths, an entry the base manifest contains is not archived |
| Backup.Snapshot.Files | src/backup.rs:210 | an unlistable base fails; otherwise the enumerator has the whole walk to yield |
| Backup.Snapshot.Destroy | src/backup.rs:119 | the snapshot is torn down; the outcome says whether that succeeded |
| Backup.Destination.FetchManifest | src/backup.rs:86 | succeeds exactly for a backup whose manifest is stored |
| Backup.Destination.Allocate | src/backup.rs:172 | a fresh, empty target, or a refusal |
| Backup.Destination.UploadManifest | src/backup.rs:134 | the manifest is stored under its descriptor exactly when the upload succeeds |
| Backup.UploadArchive | src/backup.rs:198-261 | the loop over the walk yields exactly what `Upload` computes from a fresh manifest: the same failure, or the records archived and a new manifest holding their keys; the base manifest is only read |
| Backup.FreshManifest | src/backup.rs:204 | `Manifest::new` starts with no keys and the given salt |
| Backup.Conclude | src/backup.rs:118-134 | the snapshot is torn down whatever happened; a failed transfer ends the run with its error, an incomplete target with the target's error, a refused manifest with the destination's error; the serialized manifest is uploaded exactly when the run passes, and nothing is published otherwise |
| Backup.Prepare | src/backup.rs:49-90 | the base is the one the schedule and the listing choose; a chosen base's manifest is the stored one, parsed; a failure to choose, fetch or parse ends the run with its error |
| Backup.FetchBase | src/backup.rs:83-90 | the fetch and parse of the chosen base's manifest end as `Prepare` says, with a new manifest holding the parsed value |
| Backup.Transferred | src/backup.rs:106-116 | a missing size hint fails with the snapshot's error, a refused target with the destination's refusal, an unlistable snapshot with the walk's error |
| Backup.TransferOutcome | src/backup.rs:106-116 | the transfer fails exactly on a missing size hint, a refused target, an unlistable snapshot or a bad walk item; otherwise it yields the records of the archived items in walk order and a fresh manifest holding exactly their keys |
| Backup.Transfer | src/backup.rs:106-116 | the transfer fails exactly when `Transferred` does, with its error; a missing size hint or a refused target allocates nothing; a success returns its records and manifest and allocated exactly one new target, under the pipeline it returns |
| Backup.Concluded | src/backup.rs:118-134 | a run that took its snapshot passes exactly when the transfer succeeded, the target completed and the manifest was accepted; a failed transfer's error is the run's; a target error is reported exactly when the target did not complete |
| Backup.WithSnapshot | src/backup.rs:106-134 | the snapshot is torn down; the run ends as `Concluded` says for the transfer `Transferred` describes, and publishes that transfer's manifest exactly when it passes, after finalizing the one target it allocated |
| Backup.Run | src/backup.rs:32-137 | a failed base choice, fetch or parse ends the run before a snapshot, and so does a failed snapshot, in both cases with no target allocated and the snapshot left as it was; a snapshot once taken is always torn down; the run then ends as `Concluded` says for the transfer from the chosen base's manifest; a passing run publishes exactly the serialized manifest of its archived entries under its descriptor, after the target completed; a failed run publishes nothing |

## Left out

- Compression with gzip and encryption with OpenPGP (src/compression/gzip.rs, src/encryption/pgp.rs): these wrap foreign libraries. Only the identity layers are modelled, so `create_pipeline` is modelled with neither configured.
- The storage back ends (src/destination/aws.rs, fd.rs, null.rs) and `build_destination`: network and file-descriptor I/O. `Destination` and `Pipeline.Target` are stand-ins that answer as their parameters say.
- The volume managers and mounts behind a snapshot (src/source/lvm.rs, cephfs, src/mount.rs, src/stat.rs): system calls. `Snapshot` is a stand-in holding the snapshot's tree.
- Worker threads, retry and the blocking of the upload channel: concurrency. The channel is the sequence `sent`.
- The Argon2 hash in `gen_key` and the serialization of an entry: foreign cryptography. Both are folded into the `kdf` parameter.
- The operating system's random salt in `Manifest::new`: entropy. It is the `randomSalt` parameter, and the failure of the random source is not modelled.
- Cron parsing and iteration, the clock and the host name: foreign libraries and host I/O. They are the `parse`, `now` and `host` parameters. The `unwrap` on the schedule's next instant (backup.rs:69) assumes the schedule always has one; `nextAfter` is total.
- The tar format, and opening and appending files: library I/O. The archive is a log of `Record`s, and the I/O errors of `append_dir`, `append_file`, `append_path_with_name` and `into_inner` are not modelled.
- I/O and UTF-8 errors of `read_line` and of writing into the serialization buffer: the manifest text is a `string`.
- Absolute paths: walk paths are relative to the snapshot's base directory, one name per level, where the original yields paths joined onto the base.
- Integer width of `wrote` (`usize`) and of chunk indices (`u64`): the model's counters are unbounded. Neither can overflow for any stream that fits in memory.
- Logging throughout.
- ChunkIo.WriteChunker.Write: no `limit > 0` precondition, because the original does not demand one. With a limit of 0 every `write` sends an empty chunk and takes no bytes, and the contract covers that case. Progress (at least one byte taken) is stated only for a non-zero limit.
- Source.Files.NextFile: the order of a listing is the order of the sequence given for it. The original leaves that order to the operating system.
- Backup.FilteredNotArchived: stated for walks with distinct paths, which `Source.WalkDistinct` proves for every tree whose listings have distinct names.
- The three `finalize` calls of the identity layers cannot fail, so only the target's completion can end the run at that step (`Backup.Conclude`).
- `list_backups` (backup.rs:56) is not a call: the listing it returns, or its failure, is the `listing` given to the `Destination` stand-in when it is made, and `Backup.LastFullBackup` reads it.
- Bytes in hex text: `Hex.Decode` reads characters where the `hex` crate reads bytes. The two agree on ASCII text. On non-ASCII text both fail, but which error they report (odd length or invalid character) and its payload can differ, because the crate checks the length in bytes before it looks at any byte. `Manifests.Parse` passes that error on inside `InvalidHex`.
- The archive's bytes: `Backup.UploadArchive` writes no bytes into the compressor, because the tar builder is a log of `Record`s. The identity layers therefore carry nothing in the run model; `Pipeline.Delivers` states what they would deliver.
