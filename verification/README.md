# CypherStorm in Dafny

CypherStorm turns a file tree into an authenticated, encrypted container and back. This project models
the parts of it that carry state, recursion or arithmetic, and proves what they are relied on for.
`dafny verify dfyconfig.toml` checks all of it.

**The container** (`Bytes`, `Io`, `Records`, `Decoding`, `Authenticity`, `Payload`, `Sizing`,
`Envelope`, `Recipients`, `Wrapping`, `Container`, `Rekeying`, `Operations`, `Revoking`, `Chains`,
`Lifecycle`). `Encrypt`, `Decrypt` and `Rekey` are methods over readers and writers that may split,
fault and run full; `Reader.ReadFull` has the three outcomes of `io.ReadFull`. Record headers, nonces
and associated data are bytes. Cryptography is ideal: keys are symbolic terms, sealing is a function
one tag longer than its input, a `World` logs what was sealed and boxed, and opening succeeds exactly
on logged entries. The nonce is a fixed prefix and a counter, the shape of section 3.2 of RFC 5116; it
is shown to repeat exactly 2^64 records apart. JSON and base64 (section 4 of RFC 4648, unpadded) are
encoders whose decoders invert them. The main results: a stream is accepted exactly when it is the
payload that was sealed, byte for byte, plus at most one dangling record header; whatever is rejected
has delivered a prefix; after any number of rekeys with any requests, whatever is encrypted or rekeyed
beside them, a container that can be read at all is sound for its origin, and whoever was given a
stanza no later request dropped reads the original; the size is exact. Whoever a request removes or
replaces gets nothing from its result. `Lifecycle` composes this with the archive: create, encode,
encrypt, rekey, decrypt, decode and extract give the tree back.

**The archive** (`Paths`, `Links`, `FileSystem`, `Archives`, `Extraction`, `Containment`, `Exactness`,
`Agreement`, `Unpacking`, `DirectoryModes`, `Readers`, `Creation`, `RoundTrip`, `FullRoundTrip`,
`Choosing`, `Filtering`). The file system maps absolute paths to files, directories and symlinks, and
every call resolves its path through symlinks. `Exactness.Exact` describes the outcome of an
extraction: outside the directory the root leads to nothing changes, and below it stand the written
entries and private directories on the way to them. This holds at every stopping point for every
archive and selector, a destination that could not be prepared included. What each of the three readers
accepts is stated by the entries, and the three are compared exactly; creating and extracting is the
identity exactly when names are portable and limits kept; a pruned walk is shown to be a plain filter.

**Selection** (`Selection`, `Matcher`, `Costs`). The `**` matcher as plain recursion, as a statement
about cutting the name into runs, and as the class with `memo` and `seen` that computes it in at most
|pattern| * |name| segment matches; the plain recursion takes exponentially many calls. `path.Match` is
any three-valued function on segments.

**Restore** (`Trees`, `Merging`, `Replacing`, `Restoring`). The recursive merge under skip, rename and
overwrite, for any listing order and any failing call, and the staged replacement of the destination
with every intermediate state recorded in a ghost history; composed with the extraction, whose file
system is read back as a tree.

**Credential store** (`Credentials`, `Keychain`). `Put` and `Delete` over a backend whose calls may
fail without effect, refining a map.

**Progress** (`Progress`). The producer and consumer of the capacity-one progress channel, in every
interleaving.

## What the code does that its callers may not expect

- `container.Rekey` with a new password and without `replaceSymmetric` can write a header that
  `readHeader` refuses: `Rekeying.RekeyedReads` gives the exact condition, and
  `Operations.SecondPasswordLocksOut` runs such a request, which succeeds and leaves a container nobody can
  decrypt. The application always replaces (`Rekeying.ApplicationNeverDoubles`).
- `Decrypt` accepts a finished stream followed by a lone 13-byte record header whose announced, nonempty
  body is wholly missing (`Authenticity.AcceptsExactlyThePayload`).
- `ScanTar` is documented to apply the policy of extraction. It accepts a link or file that comes after
  an entry below it, which extraction cannot write: `Agreement.ScanAndExtractionAgree` is exact,
  `Agreement.LateParentScans` shows the case. An archive without entries scans, but does not extract.
- `ExtractTar` takes a directory twice and links that pass the absolute check only; the other two readers
  refuse both. `Readers.ExtractTarAccepts` is exact, `Readers.DirectoryTwice` and `Readers.RootSpelled` show
  the cases.
- The writer does not check names: an archive with a backslash or drive-form name is created and then
  refused by the readers (`Filtering.NotPortableName`; the exact condition is `Readable` in
  `RoundTrip.ArchiveRoundTrip`).
- The link check on extraction alone accepts a target that leaves the root and returns by spelling its
  name (`Links.SpellingTheRoot`); the relative check is exactly acceptance below every root
  (`Links.PortableIffBelowEveryRoot`).
- `Put` ignores the 1024-entry cap that `listLocked` enforces, so the 1025th name makes the index
  unreadable, and every later call is refused (`Keychain.OneTooMany`, `Keychain.Stuck`).
- A restore into an existing directory leaves the root with mode 0700, that of the temporary directory it
  was staged in (`Replacing.MergedAs`).
- A requested restore path that cleans to `.` selects nothing (`Choosing.HereSelectsNothing`).



## Model

| member | source | states |
|---|---|---|
| `Bytes.Be64Congruence` | internal/security/container/container.go:640-645 | the stored counters of two records are equal exactly when the counters are congruent modulo 2^64 |
| `Bytes.PutUintUint` | internal/security/container/container.go:653-657 | every byte string is the big-endian encoding of its own value, and that value fits the width |
| `Io.Reader.ReadFull` | internal/security/container/container.go:188-206 | io.ReadFull: success exactly on a full buffer, EOF only when nothing was there, UnexpectedEOF only after a part; what is handed over is the front of the data |
| `Records.Open` | internal/security/container/container.go:267-270 | an ideal AEAD opens exactly the tuples in the log that were sealed to that ciphertext |
| `Records.Chunks` | internal/security/container/container.go:182-207 | the plaintext is cut into full records, except that the last may be shorter; together they are the plaintext, and none is empty |
| `Decoding.ParseRecord` | internal/security/container/container.go:670-682 | what is parsed is framed exactly so in the stream; end of stream is reported exactly on nothing or on a lone header whose bounded nonempty body is missing |
| `Decoding.ParseFrame` | internal/security/container/container.go:653-682 | a record within the bound is read back exactly as written, whatever follows |
| `Authenticity.EntryInjective` | internal/security/container/container.go:640-652 | two records of one payload are sealed alike only if type, index and plaintext are the same |
| `Authenticity.NonceRepeats` | internal/security/container/container.go:640-645 | nonces of one payload coincide exactly 2^64 records apart |
| `Authenticity.OpensOnlyOwn` | internal/security/container/container.go:264-270 | a ciphertext that opens at some index is the record this payload sealed at that index, type and plaintext included |
| `Authenticity.RunFinalized` | internal/security/container/container.go:251-263 | after the final record only an empty or dangling tail is accepted, and nothing more is written |
| `Authenticity.RunFrom` | internal/security/container/container.go:245-293 | from the state after k records the loop accepts exactly the rest of the payload, and never writes beyond the plaintext |
| `Authenticity.AcceptsExactlyThePayload` | internal/security/container/container.go:245-293 | whole-stream authenticity and round trip: accepted if and only if the stream is the sealed payload, plus nothing or a dangling header; acceptance delivers the plaintext, rejection a prefix of it |
| `Authenticity.PayloadRoundTrip` | internal/security/container/container.go:182-293 | decrypting what was encrypted gives the plaintext back, for every plaintext and record size |
| `Authenticity.EveryCutIsNoticed` | internal/security/container/container.go:251-257 | every proper prefix of a payload is rejected, with a prefix of the plaintext delivered |
| `Payload.PutUint64` | internal/security/container/container.go:640-652 | the in-place big-endian store writes the eight bytes of the counter and leaves the rest |
| `Payload.RecordNonce` | internal/security/container/container.go:640-645 | the filled buffer is prefix then counter |
| `Payload.RecordAad` | internal/security/container/container.go:646-652 | the filled buffer is header, type, counter |
| `Payload.WriteRecord` | internal/security/container/container.go:653-669 | on success exactly the frame is appended |
| `Payload.ReadRecord` | internal/security/container/container.go:670-682 | without a fault the result and what remains are those of the specified parse |
| `Payload.EncryptPayload` | internal/security/container/container.go:182-213 | however the reader splits its data, the bytes written are the payload of the data, sealed under consecutive nonces; without faults it succeeds |
| `Payload.DecryptPayload` | internal/security/container/container.go:245-293 | whatever faults occur, no more than the fault-free output is written; otherwise verdict and output are those of the specified loop |
| `Sizing.CeilDiv` | internal/security/container/container.go:182-207 | the least number of records that hold n bytes |
| `Sizing.PayloadSize` | internal/security/container/container.go:182-213 | n bytes become n + 29 ceil(n/R) + 53 |
| `Sizing.BodiesFit` | internal/security/container/container.go:251-277 | no sealed body exceeds the reader's bound or 32 bits, the final one at small record sizes included |
| `Sizing.FinalRecord` | internal/security/container/container.go:208-213 | the last record seals the number of records and the lengths of plaintext and ciphertexts |
| `Envelope.TableSnoc` | internal/security/container/container.go:426-447 | the recipient table is accepted stanza by stanza: known type, at most one password, nonempty distinct X25519 ids |
| `Envelope.CheckRecipients` | internal/security/container/container.go:426-447 | the loop accepts exactly those tables |
| `Envelope.ReadHeaderFrom` | internal/security/container/container.go:387-460 | over any reader without a fault the result is that of the specified header parse, and the payload is left unread |
| `Envelope.HeaderRoundTrip` | internal/security/container/container.go:387-460 | an acceptable header of bounded size is read back from the bytes written for it |
| `Envelope.HeaderCanonical` | internal/security/container/container.go:403-422 | the bytes before the payload of an accepted stream are the canonical ones of the header read |
| `Envelope.HeaderChecks` | internal/security/container/container.go:387-460 | every header read has version 2, a record size up to 16 MiB, 1 to 64 known recipients with at most one password and distinct nonempty ids, a known codec and cipher and a 32-byte payload id, in at most 1 MiB |
| `Recipients.UnwrapRecipients` | internal/security/container/container.go:538-612 | the loop gives the answer of the first stanza that does not skip |
| `Recipients.GenuineYieldsKey` | internal/security/container/container.go:538-612 | a genuine stanza never breaks off the search and never yields another key, whatever the credential |
| `Recipients.AnyHolderUnwraps` | internal/security/container/container.go:538-612 | the holder of any stanza gets the content key, wherever it sits in the table |
| `Recipients.OnlyTheKey` | internal/security/container/container.go:538-612 | no credential gets another key out of a genuine table |
| `Recipients.ServedExactly` | internal/security/container/container.go:538-612 | a genuine table yields its key exactly to those who hold an opener one of its stanzas was wrapped for |
| `Wrapping.WrapSymmetric` | internal/security/container/container.go:461-504 | succeeds exactly on usable symmetric additions, with the specified stanzas and seals; the table is acceptable and serves them |
| `Wrapping.WrapKeys` | internal/security/container/container.go:505-529 | succeeds exactly on parseable public keys without duplicates, with one specified stanza and box for each, and serves each |
| `Wrapping.WrapRecipients` | internal/security/container/container.go:461-537 | succeeds exactly when wrapping is possible; table and world are then the specified ones, and the table is acceptable, genuine and serves everyone asked for |
| `Wrapping.GrowsHonest` | internal/security/container/container.go:520-527 | wrapping the same content key again never lets another key appear under the payload id |
| `Container.MetadataOpens` | internal/security/container/container.go:294-319 | the metadata of a container opens to what was given |
| `Container.SoundDecrypts` | internal/security/container/container.go:216-320 | for any holder the table serves, Decrypt returns codec, metadata and plaintext |
| `Container.SoundDecryptsExactly` | internal/security/container/container.go:216-320 | a sound container decrypts exactly for those whom its table serves, and gives the others nothing |
| `Container.ForeignDataRejected` | internal/security/container/container.go:267-270 | under associated data the key was never used with, nothing is accepted and nothing written |
| `Container.OthersKeepRecorded` | internal/security/container/container.go:100-166 | wrapping and sealing for another payload id leave an origin the only one under its keys |
| `Container.OnlyTheOriginDecrypts` | internal/security/container/container.go:216-320 | for every credential, any byte stream that claims an origin's payload id is accepted only with its authenticated header, field by field, its metadata and its payload bytes; otherwise at most a prefix of its plaintext was written |
| `Operations.Prepare` | internal/security/container/container.go:100-166 | refuses exactly unacceptable options and an oversized header, which options and draws determine; otherwise header and world are the specified ones and the coming payload is the only one under its keys |
| `Operations.CallAccepted` | internal/security/container/container.go:100-166 | a call is accepted exactly within these bounds on record size, Argon2 parameters, cipher, codec, metadata, hint, recipients and header; zero stands for the defaults |
| `Operations.WrittenIsSound` | internal/security/container/container.go:159-213 | header and payload as written form a sound container with the given table |
| `Operations.Encrypt` | internal/security/container/container.go:100-214 | success appends a sound container with the cipher, codec, record size and hint asked for, which everyone asked for decrypts to the codec, the metadata and the input given; without faults it succeeds exactly on calls that need not be refused |
| `Operations.DecryptContainer` | internal/security/container/container.go:216-320 | agrees with the fault-free decryption, and under faults never writes beyond it |
| `Operations.CopyAll` | internal/security/container/container.go:384-384 | the payload is copied verbatim |
| `Operations.FilterKept` | internal/security/container/container.go:337-350 | keeps, in order, exactly the stanzas whose id is not to be removed and that are not symmetric ones to be replaced |
| `Operations.CheckIds` | internal/security/container/container.go:361-367 | accepts exactly tables without a repeated nonempty id |
| `Operations.Rekey` | internal/security/container/container.go:326-385 | without faults it succeeds exactly on requests the specification does not refuse; the new table holds what was added and, of the old, exactly the stanzas whose id was not to be removed, only X25519 ones when symmetric ones are replaced; at every exit at most the key it found has been wrapped |
| `Operations.AppRekey` | internal/app/rekey.go:29-96 | what is published is the specified result for a request that replaces symmetric credentials whenever it adds one, and decrypts in full with the new credential if there is one; without faults it publishes exactly when recipients load, the request is not refused and the result decrypts, on a sound container exactly when the verifying credentials open the new table |
| `Operations.KeptPasswordUnlocks` | internal/security/container/container.go:326-367 | the owner of a kept password of a sound container, adding another without replacement, meets the conditions under which the next row locks everyone out |
| `Operations.SecondPasswordLocksOut` | internal/security/container/container.go:337-385 | such a request, within the table and header limits, succeeds, and what it wrote is an unreadable header that no credential in any world decrypts |
| `Rekeying.KeptAccepted` | internal/security/container/container.go:341-350 | dropping stanzas keeps a table acceptable |
| `Rekeying.KeptInOrder` | internal/security/container/container.go:341-350 | each stanza stays or goes by itself, in order |
| `Rekeying.TablesCombine` | internal/security/container/container.go:351-367 | two acceptable tables without shared ids combine into an acceptable one exactly when not both hold a password |
| `Rekeying.ResultFound` | internal/security/container/container.go:337-372 | once the key is found, the request is refused exactly when the additions cannot be wrapped, the new table is inadmissible or the new header too large, and otherwise yields the rewritten table before the same payload |
| `Rekeying.TableAfter` | internal/security/container/container.go:337-358 | the new table is exactly what was added and the old stanzas not to be removed or replaced |
| `Rekeying.RekeyedReads` | internal/security/container/container.go:326-385 | a rekeyed container is readable exactly when it does not hold two passwords; then authenticated fields and payload are unchanged |
| `Rekeying.RekeyKeepsSound` | internal/security/container/container.go:326-385 | a readable rekey leaves a sound container of the same origin |
| `Rekeying.RekeyServes` | internal/security/container/container.go:337-367 | after a rekey every holder of a kept stanza and everyone added is served |
| `Rekeying.AnyRekeyKeepsRecorded` | internal/security/container/container.go:326-385 | a rekey of any container, sound or not, however it ends, leaves every origin the only one under its keys |
| `Rekeying.ApplicationNeverDoubles` | internal/app/rekey.go:48-57 | requests built by the application never leave two passwords |
| `Revoking.RemovedLockedOut` | internal/security/container/container.go:341-358 | whoever holds nothing asked for, and of the old stanzas only removed or replaced ones, gets nothing from the rekeyed container |
| `Revoking.KeptOpener` | internal/security/container/container.go:351-356 | what a rekey wraps opens no old stanza for anyone it was not wrapped for |
| `Revoking.AddedOpener` | internal/security/container/container.go:461-537 | a new stanza opens for those asked for only |
| `Revoking.AppRemovedLockedOut` | internal/app/rekey.go:43-67 | the same for what the application asks: removed ids, a new password or raw key, added recipients |
| `Revoking.AppAskedRead` | internal/app/rekey.go:43-67 | everyone the application asks for reads the original from the result |
| `Chains.ChainKeepsSound` | internal/security/container/container.go:326-385 | after any number of rekeys with any requests, among failed rekeys and any encryptions and rekeys of other containers, a container that can still be read is sound for its first origin |
| `Chains.ChainDecrypts` | internal/security/container/container.go:326-385 | whoever a stanza of some moment serves, if no later request drops it, gets codec, metadata and plaintext of the original from the last container |
| `Chains.AddedDecrypts` | internal/security/container/container.go:351-356 | whoever is asked for in some step gets a stanza there, and with it the same as long as it is kept |
| `Chains.ApplicationChainReads` | internal/app/rekey.go:48-91 | chains of application requests can always be read |
| `Lifecycle.ContainerSize` | internal/security/container/container.go:163-213 | the whole container is 12 + H + n + 29 ceil(n/R) + 53 bytes |
| `Lifecycle.EveryRequestedHolderDecrypts` | internal/security/container/container.go:461-612 | everyone asked for at encryption decrypts to the input |
| `Lifecycle.SelectionComesBack` | internal/app/io.go:60-90 | create, encode, encrypt, any chain of rekeys, decrypt, decode, extract: whoever is still served gets exactly the archived nodes back, exactly when the readers accept what was written |
| `Lifecycle.TreeComesBack` | internal/app/io.go:60-90 | without a selection that is the tree itself: every node at its path, and nothing else |
| `Paths.SplitJoin` | internal/storage/archive/extract.go:171-186 | splitting a joined path gives its segments back |
| `Paths.JoinInjective` | internal/storage/archive/selective.go:58-61 | the joined name determines the segments, so the table of seen names is one of paths |
| `Paths.CleanRelative` | internal/storage/archive/scan.go:127-130 | cleaning a relative path is its climb: so many levels up, then down |
| `Paths.CleanBelow` | internal/storage/archive/extract.go:330-331 | cleaning the same segments below an absolute root lands where the climb leads from there |
| `Paths.RelEscapes` | internal/storage/archive/extract.go:331-337 | the relative path escapes by the source's string tests exactly when the base is not a prefix of the target |
| `Links.EntryName` | internal/storage/archive/extract.go:157-187 | an accepted name has at least one segment, and every segment is a plain name |
| `Links.EntryNameChars` | internal/storage/archive/extract.go:157-187 | a name is accepted exactly if it is neither absolute nor a drive form, has no NUL and no backslash, no ".." segment, and some segment that is not empty or "." |
| `Links.ValidateEntryName` | internal/storage/archive/extract.go:157-187 | the loop accepts and returns exactly that |
| `Links.BelowExactly` | internal/storage/archive/extract.go:316-339 | both link checks, in terms of how far the target climbs |
| `Links.AcceptedLeadsBelow` | internal/storage/archive/extract.go:316-339 | an accepted target is not absolute, and followed from its link it ends below the root |
| `Links.PortableIsBelow` | internal/storage/archive/scan.go:123-132 | the relative check implies the absolute one under every clean root |
| `Links.PortableIffBelowEveryRoot` | internal/storage/archive/scan.go:123-132 | a target is portable exactly when the absolute check passes under every clean root |
| `Links.SpellingTheRoot` | internal/storage/archive/extract.go:330-337 | the converse for one root fails: a target that climbs out and spells the root's name passes there only |
| `FileSystem.WalkOn` | internal/storage/archive/extract.go:201-214 | a walk that reaches a directory continues from it; one that misses a name stays lost, links included |
| `FileSystem.LocateBelow` | internal/storage/archive/extract.go:201-214 | below a directory reached by any path, a call on a way without links or files acts on the node the path names |
| `FileSystem.LstatBlocked` | internal/storage/archive/extract.go:206-213 | a file on the way makes Lstat fail with another error than absence |
| `FileSystem.MkdirAllBelow` | internal/storage/archive/extract.go:227-232 | os.MkdirAll on such a way adds exactly the missing directories on it |
| `Archives.WithDefaults` | internal/storage/archive/archive.go:69-86 | negative limits are refused, zero ones stand for 100000 entries, 4 GiB an entry, 16 GiB in all and depth 64, and the others are used as given |
| `Archives.CheckEntry` | internal/storage/archive/scan.go:66-112 | the shared checks of one entry, in the source's order |
| `Archives.CheckParents` | internal/storage/archive/scan.go:81-85 | the upward loop accepts exactly when no earlier non-directory is a parent |
| `Archives.ScanTar` | internal/storage/archive/scan.go:47-121 | unless a visit stops it, the loop computes the specified result |
| `Archives.ScanAccepts` | internal/storage/archive/scan.go:47-121 | a scan succeeds exactly on entries that fit the limits one by one and in sum, with distinct paths and directories above earlier-named paths, and reports their counts |
| `Archives.CountMeans` | internal/storage/archive/scan.go:100-121 | the counts of a summary are the numbers of entries of each kind |
| `Readers.ScanTarAccepts` | internal/storage/archive/scan.go:47-121 | the accepted archives in the numbers the caller gives, entry by entry and pair by pair |
| `Readers.GivenLimitsHold` | internal/storage/archive/archive.go:69-86 | whichever reader succeeds has kept the limits it was given on entries, sizes and depth |
| `Extraction.Volume.MakeDirs` | internal/storage/archive/extract.go:227-232 | os.MkdirAll, its partial effect on failure included |
| `Extraction.Volume.Prepare` | internal/storage/archive/extract.go:127-152 | a new directory or an empty real one, made private; anything else is refused |
| `Extraction.Volume.SecureJoin` | internal/storage/archive/extract.go:201-225 | accepts exactly when no existing component is a link or unreadable; its final containment test never fires |
| `Extraction.Volume.Write` | internal/storage/archive/extract.go:227-312 | directory, link or file is made as specified; a file with a missing or oversized payload is removed again |
| `Extraction.ExtractTarSelected` | internal/storage/archive/selective.go:17-125 | the loop computes the specified result and file system, whose links and nodes the rows on extraction below describe |
| `Containment.Preparation` | internal/storage/archive/extract.go:127-152 | a prepared destination is an empty private directory, wherever links lead on the way to it; all that changed are private directories added on the way to it and its own mode |
| `Containment.PreparationFails` | internal/storage/archive/extract.go:127-152 | a destination that could not be prepared is left as it was, or with directories on the way to it |
| `Containment.SafeJoinMeans` | internal/storage/archive/extract.go:201-225 | the component check passes exactly when the way below the root is clear and its end is not a link |
| `Containment.MaterialiseBelow` | internal/storage/archive/extract.go:227-312 | writing an accepted entry acts on its own path and nowhere else, and when it fails |
| `Exactness.StepExact` | internal/storage/archive/selective.go:33-123 | exactly when one turn of the loop succeeds, and that it adds exactly the selected entry |
| `Exactness.RunExact` | internal/storage/archive/selective.go:33-123 | after any number of turns, failed or not, the destination holds selected entries, and private directories on the way to selected entries, only |
| `Exactness.ExtractionStaysBelow` | internal/storage/archive/selective.go:17-125 | for every archive, selector and stopping point, preparation included: nothing changes but the way to the root and what is below its directory, every node below it is at its entry's path or on the way to one, and success means exactly the selected entries |
| `Exactness.ExtractedLinksStay` | internal/storage/archive/selective.go:17-125 | at every stopping point no link below the root is absolute or leads out of any root |
| `Exactness.SelectedWritten` | internal/storage/archive/selective.go:17-125 | on success every selected entry stands at its path with its content and permission bits, its target, or as a private directory |
| `Agreement.RunsAgree` | internal/storage/archive/selective.go:33-123 | extracting everything succeeds exactly on what the scan accepts, without a file or link after an entry below it |
| `Agreement.ScanAndExtractionAgree` | internal/storage/archive/scan.go:45-121 | scan and full extraction agree exactly up to that case and the empty archive, with the same summary |
| `Agreement.LateParentScans` | internal/storage/archive/scan.go:81-85 | such an archive scans and cannot be extracted |
| `Agreement.SelectionNarrows` | internal/storage/archive/selective.go:16-125 | if everything extracts, so does any nonempty selection, with the same summary, and exactly the selected entries are written |
| `Unpacking.ExtractTar` | internal/storage/archive/extract.go:21-118 | the loop and the metadata pass compute the specified result |
| `Unpacking.ApplyDirectoryMetadata` | internal/storage/archive/extract.go:234-249 | sorts deepest first and sets the modes one after the other |
| `DirectoryModes.DeepestFirstSorts` | internal/storage/archive/extract.go:235-237 | the stable sort loses nothing, orders by depth, and keeps which mode is last for a path |
| `DirectoryModes.ApplyModesWorks` | internal/storage/archive/extract.go:238-248 | deepest first, every mode is set even if it forbids searching the directory |
| `DirectoryModes.ShallowestFirstFails` | internal/storage/archive/extract.go:234-249 | in the other order a directory that may not be searched shuts out the one below it |
| `DirectoryModes.UnpackingStaysBelow` | internal/storage/archive/extract.go:18-118 | likewise for ExtractTar, which keeps its limits on entries and bytes; on success every directory entry has the mode last given for it |
| `DirectoryModes.UnpackedLinksStay` | internal/storage/archive/extract.go:18-118 | at every stopping point no link ExtractTar made is absolute or leads out of its root |
| `DirectoryModes.FullFollowsSelective` | internal/storage/archive/extract.go:18-118 | what the selective form extracts whole, ExtractTar extracts, to the same files, links and directories up to directory modes |
| `Readers.UnpackAccepts` | internal/storage/archive/extract.go:45-118 | the loop of ExtractTar succeeds exactly on archives within the limits whose entries can be written one by one, with a path twice only for directories and only directories above other entries, earlier or later |
| `Readers.ExtractTarAccepts` | internal/storage/archive/extract.go:18-118 | so does the whole call; the scan accepts what has no late parent exactly when ExtractTar does, links are portable and no path occurs twice |
| `Readers.DirectoryTwice` | internal/storage/archive/extract.go:74-83 | a directory given twice is unpacked and not scanned |
| `Readers.RootSpelled` | internal/storage/archive/extract.go:316-339 | a link that leaves the root and returns by its name is unpacked and not scanned |
| `Creation.Archiver.Enter` | internal/storage/archive/create.go:48-101 | one callback: fails exactly on a selection error or a link that may not be written, and otherwise writes, counts and descends as decided |
| `Creation.Archiver.WalkNode` | internal/storage/archive/create.go:48-101 | visits exactly what can be reached without passing a pruned directory, parents first, each once; fails exactly if some callback would |
| `Creation.CreateTar` | internal/storage/archive/create.go:35-111 | the same for a whole root, whose contents are listed without a wrapper or which is listed under its base name |
| `RoundTrip.VisitedMeans` | internal/storage/archive/create.go:48-101 | visited are exactly the nodes with no pruned directory above them |
| `RoundTrip.CreationFails` | internal/storage/archive/create.go:70-101 | creation fails exactly on a node it comes to whose selection errs or that is a link which may not be written |
| `RoundTrip.NameOfPath` | internal/storage/archive/create.go:113-139 | a written name, with or without the trailing slash, reads back as its path exactly when its text is portable |
| `RoundTrip.WrittenAccepted` | internal/storage/archive/create.go:113-194 | what was written is accepted by the readers exactly when names are portable and limits kept |
| `RoundTrip.WrittenLinksAccepted` | internal/storage/archive/create.go:147-159 | every link written passes both checks of the readers under any root |
| `RoundTrip.ArchiveRoundTrip` | internal/storage/archive/selective.go:17-125 | create then extract, for every selection: succeeds exactly when something was written, names are portable and limits kept, and brings back exactly the archived files with modes, links and directories |
| `FullRoundTrip.FullArchiveRoundTrip` | internal/storage/archive/extract.go:18-118 | create then ExtractTar brings every archived node back, each directory with its own permission bits, below unsearchable directories too, and nothing else |
| `Filtering.WholeTreeComesBack` | internal/storage/archive/create.go:31-33 | without a selection every node of the tree comes back at its path, with content, permission bits and target, and nothing else does |
| `Filtering.WholeTreeFails` | internal/storage/archive/create.go:126-159 | without a selection creation fails exactly on a symlink that is not portable |
| `Filtering.NotPortableName` | internal/storage/archive/create.go:113-139 | a tree whose one file has a name that is no portable text is archived, and the archive neither scans nor extracts |
| `Filtering.BackslashNotPortable` | internal/storage/archive/extract.go:157-187 | names with a backslash and drive names are no portable texts |
| `Filtering.PrunedWalkIsAFilter` | internal/app/source_selection.go:32-61 | whenever the walk succeeds, archived are exactly the nodes with no excluded directory above them that are not excluded and that the includes want, whatever the patterns would do on nodes never tried |
| `Filtering.StarPatternsFilterNodes` | internal/app/source_selection.go:20-61 | ... and with exclude patterns ending in a double star the directories above need not be looked at |
| `Filtering.BuiltInExcludesFilterNodes` | internal/app/source_selection.go:20-61 | so it is with the built-in excludes alone |
| `Choosing.BuiltInsMatch` | internal/app/source_selection.go:20-31 | excluded is exactly what a given exclude matches and what lies at or below something named .git, .hg or .svn, or .cache, __pycache__ or node_modules, as asked for |
| `Filtering.PreviewAccounts` | internal/app/source_selection.go:62-77 | the preview counts every visited node once, entries and bytes; its included part is what was written |
| `Choosing.CouldContainMeans` | internal/app/source_selection.go:80-90 | couldContain holds exactly when the directory's segments start the pattern's literal part or the pattern starts with a double star |
| `Choosing.LiteralMeans` | internal/app/source_selection.go:80-90 | the literal part ends at the first of *, ? and [, and one slash before it is dropped |
| `Choosing.Select` | internal/app/source_selection.go:32-61 | the two loops compute the specified decision |
| `Choosing.CreateSelectionOptions` | internal/app/source_selection.go:19-31 | the options are built exactly when no pattern errs on the fixed name |
| `Choosing.DecideMeans` | internal/app/source_selection.go:32-61 | whenever the decision is no error it does not depend on the order of the patterns; it is none where no pattern errs |
| `Choosing.PruningIsRedundant` | internal/app/source_selection.go:33-44 | below a directory pruned by patterns ending in a double star, everything matches one of them anyway and is never included |
| `Choosing.RestoreSelect` | internal/app/restore.go:121-150 | the three loops compute the specified choice |
| `Choosing.RestoreMeans` | internal/app/restore.go:121-150 | whenever the choice is no error, an entry is restored exactly when it is asked for and no exclude matches it |
| `Choosing.PathSelectsMeans` | internal/app/restore.go:124-129 | a requested path selects an entry exactly when its cleaned segments start the entry's |
| `Choosing.PathSelectsBelow` | internal/app/restore.go:124-129 | what is asked for brings along everything below it |
| `Choosing.HereSelectsNothing` | internal/app/restore.go:124-129 | a requested path that cleans to the current directory selects nothing |
| `Selection.StarsCollapse` | internal/storage/selection/selection.go:34-36 | adjacent double stars mean what one means |
| `Selection.VisitMeans` | internal/storage/selection/selection.go:29-78 | a result of the plain recursion that is not an error is the meaning: the pattern can be laid over the whole name |
| `Selection.ScanMeans` | internal/storage/selection/selection.go:46-60 | the loop of a double star tries every run it may cover |
| `Selection.PlainErrs` | internal/storage/selection/selection.go:61-70 | without double stars a malformed segment is reported exactly if everything before it fits |
| `Selection.ScanErrs` | internal/storage/selection/selection.go:51-60 | a double star reports an error exactly if an attempt errs before any succeeds |
| `Selection.VisitBelow` | internal/storage/selection/selection.go:33-76 | a pattern ending in a double star that matches a name matches everything below it, and errs nowhere there |
| `Matcher.Matcher.Visit` | internal/storage/selection/selection.go:33-76 | with the memo the result is the plain recursion's, and no state is evaluated twice |
| `Matcher.MatchParts` | internal/storage/selection/selection.go:29-78 | the memoised matcher agrees with the recursion and the meaning, evaluates each state at most once, and matches at most length times length segments |
| `Costs.PlainRecursionIsExponential` | internal/storage/selection/selection.go:33-76 | without the memo, a pattern of 2k + 1 segments on a name of 2k takes at least 2^k calls, for any literal segment matcher |
| `Matcher.Match` | internal/storage/selection/selection.go:10-27 | the checks on pattern and name around it |
| `Matcher.PatternChecks` | internal/storage/selection/selection.go:10-27 | empty, absolute, backslashed and climbing patterns are refused, and no others on clean names |
| `Matcher.StarsCoverBelow` | internal/storage/selection/selection.go:46-50 | a pattern ending in a double star that matches a directory matches everything below it |
| `Trees.KeepsPaths` | internal/app/restore.go:198-256 | keeping a tree means that every file and link of it is found at its path |
| `Trees.LeavesMeans` | internal/app/restore.go:198-256 | the leaves conserved by a merge are the files and links found at some path |
| `Merging.SkipIsOverwriteSwapped` | internal/app/restore.go:227-236 | skip(dst, src) and overwrite(src, dst) are the same tree, directory modes aside |
| `Merging.WinnerFound` | internal/app/restore.go:227-236 | overwriting every file and link of the source, skipping every one of the destination, is found at its path |
| `Merging.LonerFound` | internal/app/restore.go:203-226 | what has no counterpart on the other side is found at its path |
| `Merging.OverwriteAgain` | internal/app/restore.go:230-236 | overwriting again with the same tree changes nothing |
| `Merging.FreeName` | internal/app/restore.go:238-248 | finds a free candidate name, the first one unless a lookup failed and was passed over; none only if all ten thousand, which differ, are taken or their lookups failed |
| `Merging.MergeEntry` | internal/app/restore.go:204-254 | one source entry: files and links are conserved, the destination kept, the entry merged or placed, without faults under its first free candidate, and nothing else changes |
| `Merging.MergeTrees` | internal/app/restore.go:198-257 | for any order and any failing call: short of overwriting, files and links are conserved with multiplicity and the destination kept, and at every exit there is nothing but what the two trees account for, name by name; success computes the skip or overwrite merge, or places every source entry and drains the source; without faults renaming succeeds unless two directories that meet hold ten thousand names |
| `Merging.CandidateOfOne` | internal/app/restore.go:238-248 | a candidate name belongs to one name only |
| `Merging.CandidatesDiffer` | internal/app/restore.go:238-248 | the candidates of one name are all different |
| `Merging.DigitsRead` | internal/app/restore.go:239-240 | the number in a candidate is written in decimal |
| `Merging.RoomyNotCrowded` | internal/app/restore.go:238-251 | where no two directories that meet hold ten thousand names, some candidate is always free |
| `Merging.CrowdedWhen` | internal/app/restore.go:238-251 | an entry that finds no candidate free finds all of them among the names of the two trees merged |
| `Merging.TrackedStep` | internal/app/restore.go:203-254 | each turn keeps the account: every name is an old one, or stands for one source entry and that alone, and what was merged grew from the two directories of that name |
| `Merging.PlacedPaths` | internal/app/restore.go:203-254 | after a rename merge every file and link of the source is found, each name on its way its own or a candidate of it |
| `Replacing.ReplaceDirectory` | internal/storage/fsutil/directory.go:11-46 | refuses linked paths and different parents unchanged; at every intermediate state the old tree is whole at the destination or the backup or the new one is at the destination; only a failed rollback strands it |
| `Replacing.CopyNode` | internal/app/restore.go:152-196 | a copy is exact, and refused on any symlink |
| `Replacing.HasLinkMeans` | internal/app/restore.go:152-196 | refused are exactly trees with a symlink at some path |
| `Replacing.BuildStage` | internal/app/restore.go:106-111 | the stage is the policy merge of a copy of the destination and what was extracted, with nothing else in it; without faults it succeeds unless there are links or crowded names |
| `Replacing.RoomyMergeable` | internal/app/restore.go:106-111 | skip and overwrite merges always go through, and rename merges unless two directories that meet hold ten thousand names |
| `Replacing.RestoreInto` | internal/app/restore.go:89-118 | at every state, whatever fails, the old tree survives whole or the complete merged tree is in place; success means the policy merge and nothing else, and without faults it comes unless links or crowded names prevent it |
| `Replacing.RestoreFresh` | internal/app/restore.go:71-95 | a new destination appears whole or not at all |
| `Restoring.TreeStands` | internal/app/restore.go:81-112 | every directory of a file system has a tree of what stands below it: each node at its path and no other |
| `Restoring.ExtractedTree` | internal/app/restore.go:81-84 | read back, a finished extraction is the tree of exactly the selected entries |
| `Restoring.SelectorMeans` | internal/app/restore.go:121-150 | an entry is selected exactly when no exclude matches it and it is asked for by path or pattern, or nothing is asked for |
| `Restoring.ExtractSelected` | internal/app/restore.go:81-90 | extraction with the restore selector, and the tree it leaves |
| `Restoring.Restore` | internal/app/restore.go:71-118 | a successful restore leaves the policy merge of the old tree and exactly the selected entries, or exactly these at a new destination; at every state the old tree is whole or that result is in place; without faults it succeeds once the extraction does, unless links or crowded names prevent the merge |
| `Credentials.IndexIsNoName` | internal/credential/credentialstore/store.go:17-19 | no valid name collides with the index account |
| `Credentials.SortedUnique` | internal/credential/credentialstore/store.go:99-99 | a strictly sorted index is determined by its entries |
| `Credentials.LessMeans` | internal/credential/credentialstore/store.go:99-99 | names are ordered by the first character that differs, a proper prefix first |
| `Credentials.UpdatedMeans` | internal/credential/credentialstore/store.go:88-99 | the list Put writes is sorted and holds the new entry as the one of its name |
| `Credentials.StoredConsistent` | internal/credential/credentialstore/store.go:84-118 | storing is a map update that keeps index and records in agreement |
| `Credentials.RemovedConsistent` | internal/credential/credentialstore/store.go:167-188 | so is removing |
| `Keychain.KeychainStore.ListLocked` | internal/credential/credentialstore/store.go:204-223 | lists exactly a readable index within the limits |
| `Keychain.KeychainStore.List` | internal/credential/credentialstore/store.go:196-203 | lists a readable index and changes nothing; without faults it answers exactly on a readable index |
| `Keychain.KeychainStore.Put` | internal/credential/credentialstore/store.go:69-131 | the backend ends updated or exactly as it was, unless the rollback itself fails |
| `Keychain.KeychainStore.Delete` | internal/credential/credentialstore/store.go:158-195 | likewise |
| `Keychain.KeychainStore.Get` | internal/credential/credentialstore/store.go:132-157 | returns what is stored under a valid name |
| `Keychain.Session` | internal/credential/credentialstore/store.go:69-195 | over any sequence of calls and failures short of a failed rollback, the store refines the map its successful calls make, with index and records in agreement |
| `Keychain.PutReadableExactly` | internal/credential/credentialstore/store.go:204-223 | after a Put the index is readable exactly while the new list keeps the limits Put does not check |
| `Keychain.Stuck` | internal/credential/credentialstore/store.go:69-195 | a store whose index cannot be read refuses every call of any sequence and never changes |
| `Keychain.OneTooMany` | internal/credential/credentialstore/store.go:84-118 | from a readable store of 1024 names, a Put of a new one that is done leaves such a store |
| `Progress.ProduceInvariant` | internal/ui/tui/model.go:492-505 | each channel operation of the sink keeps the invariant |
| `Progress.ConsumeInvariant` | internal/ui/tui/model.go:535-543 | so does each receive |
| `Progress.CoalescingKeepsTheLast` | internal/ui/tui/model.go:490-543 | in every interleaving no second send is dropped, delivered events are an in-order selection, and a consumer that sees the close has received the last event |
| `Progress.ProducerNeverWaits` | internal/ui/tui/model.go:492-505 | the sink reaches its end in a bounded number of its own steps, whatever the consumer does |

## Left out

- Real cryptography and codecs: AES-GCM, XChaCha20-Poly1305, Argon2id, HKDF, age, gzip, zstd, lz4, bzip2 and xz appear as ideal or abstract functions with the laws named above.
- JSON and base64 text: only that decoding inverts encoding; invalid UTF-8 in hints is not modelled.
- Key lengths handed to the cipher suite, and wiping of key memory.
- Context cancellation: a cancelled step is a step that fails.
- Records beyond 2^64 in one payload: the counter wraps as in the source, and the stream theorems assume that it does not.
- Operating-system faults during extraction and archive creation: lookups, creations and walks fail only for reasons of the tree itself; faults are modelled for restore, the store and the container streams.
- Tar block encoding, modification times, ownership, umask and special nodes; a short source file while archiving.
- Directory search permission is modelled where directory modes are set, not in the other calls.
- `Unpacking.Chmod`: applies to directory entries; the modes of files are part of creating them.
- `Unpacking.ExtractTar`: modification times, set on files as they are written and on directories at the end, are no part of the file system here.
- `Unpacking.ApplyDirectoryMetadata`: likewise sets modes only, not modification times.
- `Merging.MergeTrees`: works on tree values instead of changing directories in place; the partial states of the staging tree are not in the history of `Replacing`, which records the destination's parent.
- `Restoring.Restore`: the extraction runs in a file system of its own, whose tree is then handed to the destination's parent; the two are not one store.
- The order in which directories are listed: the source sorts, the model proves its results for any order.
- Backup and staging names are assumed not to exist, as os.MkdirTemp provides; that a path component is a symlink is a parameter of `Replacing`.
- `PublishAtomic`, `PublishDirectory`, `Workspace` and `ValidateNoContainment`: publication appears as one rename that may fail; checks for overlapping paths are short case analysis.
- Decompression and tar decoding are one abstract pair of functions in `Lifecycle`; prepared outputs and the service plumbing are not modelled.
- What a restored symlink resolves to: the source checks targets lexically only.
- Manifest comparison, batch naming, configuration, hashing, identity and key files, benchmark, command line and screens: they would add only easy members.
