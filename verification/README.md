# A verified model of the Coldcrypt backup engine

Coldcrypt keeps up to three encrypted versions of every source file. The versions are rows of two SQLite tables;
their bytes are blobs on a remote server. This project models the parts of the program that decide whether a
backup can be trusted, and proves properties of them:

* **The backup protocol** (`Protocol`, `History`, `Backup`, `Refinement`, `Restore`, `Scan`, `Purge`). Workers
  that back up files and purges that remove them interleave in steps of one remote call or one transaction, and
  any step may fail or be the last before a crash. Every recorded version stays restorable to the bytes that
  were read for it, until a purge lists it. The imperative `processFile`, `PurgeByPrefixWithReport`,
  `PurgeFileVersion` and `applyDeletedSourceRetention` are proved to be runs of those steps.
* **The tables** (`Database`, `Versions`, `Ties`, `Utf8`, `Prefixes`, `Selection`, `Listing`). The transactions
  keep one to three versions per file; under a ticking clock exactly the last three uploads remain; LIKE is
  modelled on the characters of UTF-8, with its wildcards and its case folding, while paths are sliced by bytes;
  ties in `encrypted_at` are broken arbitrarily.
* **Incremental runs** (`Incremental`, `Concurrent`). After a run without errors the latest version of every
  file has its content's hash, and a run over such files uploads nothing, however the workers interleave.
* **Deleted-source retention and the walk** (`Retention`, `Lifecycles`, `Paths`, `Walk`). What a pass does to
  every mark, why a purge needs an old enough mark, and when the pruned walk sees exactly the files it should.
* **The containers** (`Streams`, `Container`, `Layout`, `Cbc`, `CbcMode`). The chunked AEAD container and the
  streaming CBC encryption of database dumps, byte by byte and bit by bit, for every way readers split their
  data and for sinks that fail after any byte.
* **Concurrency** (`WorkerPool`, `ScanPool`, `Pipes`, counting with `Sums`). The worker pools and the in-process
  pipes as interleaved steps: every item once, totals, termination, and exactly when they hang.
* **Remote commands** (`ShellQuote`). What a POSIX shell reads back from a quoted path, and where a blob id
  leads.

Cryptographic primitives, gzip, hashing and key derivation are parameters with the law each proof needs:
AEAD_AES_256_GCM of section 5.2 of RFC 5116 enters through "opening undoes sealing" and its tag length; CBC is
section 6.2 of NIST SP 800-38A over any block cipher; the padding is section 6.3 of RFC 5652; gzip is any pair
of functions the second of which undoes the first. The clock, random draws, failing calls and cancellations are
parameters too. A text is a sequence of bytes, one char each.

`dafny verify dfyconfig.toml` checks the whole project.

## Main results

* `History.EveryVersionIsStored` and `History.BackupsLoseNothing`: whatever interleaves, fails or crashes, a
  recorded version's blob is whole until a purge lists it. `Refinement.ProcessFileRefines`,
  `Refinement.PurgeRefines`, `Refinement.PurgeVersionRefines` and `Refinement.RetentionRefines` tie the
  imperative code to those runs.
* `Restore.RestoreRecorded`: restoring a recorded version writes the bytes that were backed up, in every
  reachable state; `Restore.RestoreFetches`: which upload each version number asks for, after any run of backups.
* `Scan.NoFalseAlarm` and `Scan.ScanDetects`: a scan that runs beside backups and purges finds no inconsistency,
  and one over a store that was changed from outside finds exactly the changes its hash can tell.
* `Selection.PurgePrefix`: a purge by a prefix without wildcards takes what begins with it letter by letter, up
  to ASCII case, and spares every other row and object.
* `Versions.TheLastThreeRemain`: under a ticking clock the rows are the last three uploads;
  `Versions.NumbersGrowIff`: when version numbers grow, exactly; `Ties.QueriesAgreeIff`: which clock readings
  make the latest version a choice.
* `Concurrent.SecondBackup`: however the workers interleave, a second run over an unchanged source uploads
  nothing, and exactly when it changes a row; `Concurrent.ProcessFileIsRun` and `Incremental.BackupTwice` tie it
  to the imperative code.
* `Container.BlobRoundTrip`, `Container.DecryptFile` and `Container.CutBlob`: the container for every split of
  its streams, every sink, and every point at which it is cut; `Layout.HeaderIs`, `Layout.FrameIs` and
  `Layout.BlobReads`: which byte stands where, and that every blob with its bytes there is read.
* `Cbc.EncryptCbcWithPkcs7`, `Cbc.DecryptCbcWithPkcs7` and `Cbc.CbcAccepts`: the streaming CBC equals the
  one-shot one, and accepts exactly the encryptions; `CbcMode.EncryptsIff` and `CbcMode.DumpReads`: that is the
  chaining mode, bit for bit, whoever wrote the dump.
* `Walk.WalkIsExact` and `Walk.PresentFileIsMarkedIff`: what the pruned walk sees, and which present files
  retention marks.
* `Lifecycles.PurgedOnlyAfterRetention`: what must have happened before a record is purged.
* `WorkerPool.PoolDoesItsWork` and `Concurrent.BackupIsOverIff`: each item once, and exactly when a backup run
  never ends; `ScanPool.ScanCanHangIff` for scans; `Pipes.CompressingEndsIff` for the call that never returns.
* `Listing.ReachedIff` and `Listing.ReachedTwiceIff`: each live file in one place of the tree, and exactly when
  in two, for any characters.
* `ShellQuote.QuoteIsOneWordIff`: quoting is exact up to NUL.

## Where the code and its documentation differ

The model follows the code. Each point is proved, with the exact condition or a concrete case.

* Version numbers are documented as monotonically increasing. In a run a file's next number is always new
  exactly when its newest version is never deleted while others remain (`Versions.NumbersGrowIff`); after such a
  deletion a number is given out that had been given before (`Versions.DeletingTopReuses`).
* Asking to restore a version number that is gone quietly restores another version when the number is at most
  the count of versions (`Restore.SelectedBearsTheNumberIff`): after four backups, 1 restores version 4
  (`Restore.VersionOneGivesVersionFour`).
* Any tampering with a blob is documented to make decryption fail. A blob cut at the end of its header or of a
  frame is accepted and yields a prefix of the file (`Container.CutBlob`), and so does a download that ends
  there early (`Restore.EarlyEndIsAcceptedIff`). The documented blob layout (one nonce, one ciphertext) is that
  of neither format the code writes.
* A compressing encryption whose destination fails before the last frame never returns (`Container.StallsIff`,
  `Pipes.CompressingEndsIff`), so neither does the worker that made the call, and the backup run never ends
  (`WorkerPool.RunIsOverIff`, `Concurrent.BackupIsOverIff`).
* Functions documented to select paths that start with a prefix select by LIKE: also paths that differ in ASCII
  case, and anything the wildcards in the prefix allow (`Prefixes.PrefixSelectsIff`). In the tree a file is
  listed in two directories exactly when the prefix of directories that can be opened passes with LIKE, byte for
  byte, for the beginning of a path that does not begin with it (`Listing.ReachedTwiceIff`,
  `Listing.ListedTwice`). Where no path has an underscore, or all are ASCII, the directories of the paths on
  record decide (`Listing.AlignedIsReachedTwiceIff`, `Listing.WhenSelectionsAreAligned`). Otherwise LIKE counts
  characters and the code slices bytes, so that a file selected by mistake can be skipped
  (`Listing.NotListedTwice`). With a percent sign in the prefix a selected path can have fewer bytes than it
  (`Prefixes.SelectsShorterIff`), which is a slice out of range (`Listing.ListDirectChildren`,
  `Listing.OpeningCanPanic`).
* A marked file that reappears but whose unmarking fails keeps its old mark, and the next pass that misses it
  purges it by that mark (`Lifecycles.SeenFileIsSafeIff`). A present file is marked when a regex excludes a
  directory on the way to it but not the file, or when a directory read fails (`Walk.PresentFileIsMarkedIff`),
  and purged when the retention time is over (`Walk.SkippedFileIsPurged`).
* The retention time of a schedule wraps beyond 106751 days or 15250 weeks
  (`Lifecycles.RetentionDurationIsExactIff`, `Lifecycles.RetentionDurationCanWrap`).
* A backup in which no worker connects ends without an error and without a backup, or hangs once there are more
  files than the queue holds (`WorkerPool.NobodyConnects`, `WorkerPool.NobodyConnectsCanHangIff`). A cancelled
  scan can hang once there are more entries than the queue and the workers hold (`ScanPool.ScanCanHangIff`).

## Model

| member | source | states |
|---|---|---|
| Streams.Reader.Read | internal/dbdump/openssl.go:83-84 | one read of an io.Reader in its whole contract: any number of bytes up to the buffer, zero included, the end reported with the last bytes or later, what was delivered and what is left together always the same data |
| Streams.ReadFull | internal/agent/encrypt.go:106-131 | io.ReadFull over any split: fills the buffer or takes everything, and tells full, nothing left, cut short and failure apart |
| Cbc.DecryptUndoesEncrypt | internal/dbdump/openssl.go:50-70 | CBC decryption undoes CBC encryption whenever the block cipher's decryption undoes its encryption |
| Cbc.EncryptUndoesDecrypt | internal/dbdump/openssl.go:50-70 | and the other way round, for any aligned ciphertext |
| Cbc.Encrypter.CryptBlocks | internal/dbdump/openssl.go:88-89 | the in-place block mode leaves the one-shot CBC encryption in the buffer, the rest untouched, and the last ciphertext block as chaining state |
| Cbc.Decrypter.CryptBlocks | internal/dbdump/openssl.go:124-126 | the in-place decryption, chaining on the ciphertext it has overwritten |
| Cbc.StripPadding | internal/dbdump/openssl.go:154-163 | the byte-by-byte loop decides exactly the padding predicate and returns the unpadded text |
| Cbc.EncryptCbcWithPkcs7 | internal/dbdump/openssl.go:79-111 | for every split of the source and every room in the sink: exactly the one-shot CBC encryption of the padded text, clipped to the room, and the right verdict |
| Cbc.DecryptCbcWithPkcs7 | internal/dbdump/openssl.go:113-167 | for every split: exactly what one-shot decryption, alignment and padding say, clipped to the room, and the right verdict |
| Cbc.CbcRoundTrip | internal/dbdump/openssl.go:79-167 | decrypting under any split what was encrypted under any other returns the text |
| Cbc.CbcAccepts | internal/dbdump/openssl.go:113-167 | a ciphertext is accepted exactly when it is the encryption of some text, and then of the text returned |
| Cbc.CbcRejects | internal/dbdump/openssl.go:147-162 | the three rejections and exactly when each happens; by then all complete blocks but the last have been written |
| Cbc.EncryptDump | internal/dbdump/openssl.go:32-52 | the salted header, the salt and the encryption, clipped to the sink's room |
| Cbc.DecryptDump | internal/dbdump/openssl.go:22-72 | header check, key from the stored salt, decryption of the rest |
| Cbc.DumpRoundTrip | internal/dbdump/openssl.go:26-72 | a dump restores to the database it was made from, whatever salt was drawn |
| CbcMode.XorDiffers | internal/dbdump/openssl.go:50-70 | the exclusive or of two bytes has bit i set exactly when bit i of the one differs from that of the other |
| CbcMode.XorBlockInjective | internal/dbdump/openssl.go:50-70 | a block chained with two initialization vectors gives the same block only when they are the same |
| CbcMode.EncryptsIff | internal/dbdump/openssl.go:50-52 | a ciphertext is the encryption exactly when its every block is the cipher's image of the block that differs, bit for bit, where the plaintext block and the ciphertext block before it (first the initialization vector) do |
| CbcMode.DecryptsIff | internal/dbdump/openssl.go:69-70 | a plaintext is the decryption exactly when each of its blocks has the bits in which the deciphered block and the ciphertext block before it differ |
| CbcMode.WritesCbcOfPadded | internal/dbdump/openssl.go:79-111 | what the streaming encryption writes is that mode over the text followed by k bytes of value k, 1 to 16, up to whole blocks |
| CbcMode.ReadsCbcOfPadded | internal/dbdump/openssl.go:113-167 | any ciphertext of that form, whoever wrote it, decrypts to the text |
| CbcMode.DumpIs | internal/dbdump/openssl.go:32-52 | a dump is the characters Salted__, the eight bytes of salt, and that mode over the padded database |
| CbcMode.DumpReads | internal/dbdump/openssl.go:54-72 | any dump of that form is read as its database |
| CbcMode.TurnedDownIff | internal/dbdump/openssl.go:54-61 | the header is turned down exactly when there are fewer than 16 bytes or the first eight are not Salted__ |
| Container.EncryptWithMagic | internal/agent/encrypt.go:79-134 | for every split of the source: header and one sealed frame per 32 MiB chunk, clipped to the sink's room, the right verdict, and what is left unread of the source |
| Container.CompressAndEncryptFile | internal/agent/encrypt.go:57-75 | the container of the compressed stream under the CCZK magic, clipped to the room; a failing source is reported; and exactly when the call never returns |
| Container.StallsIff | internal/agent/encrypt.go:57-75 | the call never returns exactly when the sink gives out before the last frame of a stream that is not empty |
| Container.DecryptChunked | internal/agent/encrypt.go:158-210 | for any bytes and any split: exactly the plaintext of the frames before the first bad one, and which of the errors ends it |
| Container.DecryptFile | internal/agent/encrypt.go:140-243 | the whole of decryption, both magics, equals the decoder on values, clipped to the sink's room |
| Container.DecodeFramesOf | internal/agent/encrypt.go:105-205 | frames decode to their plaintext and decoding goes on with whatever follows |
| Container.BlobRoundTrip | internal/agent/encrypt.go:79-154 | decryption undoes encryption for every length, empty and exact multiples of the chunk included |
| Container.CompressedRoundTrip | internal/agent/encrypt.go:57-243 | the same for compressed blobs, for any gzip that gunzip undoes |
| Container.UnfinishedIsTurnedDown | internal/agent/encrypt.go:57-75 | where gunzip turns down unfinished streams, what a failing source leaves behind is not taken for a backup |
| Container.FrameAt | internal/agent/encrypt.go:105-125 | where each frame sits, under which nonce, and that every frame but the last holds exactly 32 MiB |
| Layout.HeaderIs | internal/agent/encrypt.go:26-95 | every blob begins with the characters CCBK or CCZK and the bytes 0, 0, 0, 2 |
| Layout.FrameIs | internal/agent/encrypt.go:105-125 | the frame for the plaintext from m on, m a multiple of 33554432, begins at 8 + m + 32 (m / 33554432): four bytes that weighted 1, 256, 65536 and 16777216 add up to the chunk's size plus 28, its nonce, and the chunk sealed under it |
| Layout.BlobReads | internal/agent/encrypt.go:140-210 | any blob with bytes of that layout, of any recorded chunk size and frames within it, decodes to its plaintext |
| Layout.CapIs | internal/agent/encrypt.go:163-193 | a first frame is turned down as too long exactly when its length exceeds the recorded chunk size by more than 28, modulo 2^32; within that one cut short is cut data |
| Layout.UnknownIff | internal/agent/encrypt.go:140-155 | the format is unknown exactly when at least four bytes are there and they are neither CCBK nor CCZK |
| Container.CutFrames | internal/agent/encrypt.go:179-208 | frames cut after any byte decode to the plaintext of the complete ones, without error only at a frame's end |
| Container.CutBlob | internal/agent/encrypt.go:140-208 | a CCBK blob cut anywhere writes exactly the complete frames' plaintext and is accepted exactly at the end of the header or of a frame |
| Database.StepKeepsSound | internal/db/db.go:445-716 | every transaction keeps: one to three versions per file, every version has its file, source paths and (file, number) unique |
| Database.Database.UpsertFileVersion | internal/db/db.go:445-541 | commits exactly one new row and an eviction exactly when three were there, answers the evicted blob, or changes nothing |
| Database.Database.GetLatestVersionInfo | internal/db/db.go:577-590 | some row of greatest encryption time, or none without a file |
| Database.Database.UpdateLatestVersionMtime | internal/db/db.go:595-607 | changes the modification time of some latest row and nothing else |
| Database.Database.GetFileVersions | internal/db/db.go:654-676 | every version of the file once, newest first |
| Database.Database.DeleteFileVersion | internal/db/db.go:679-716 | removes the row, answers its blob, and removes the file with its last version; an absent row changes nothing |
| Database.Database.ListBlobIDsByDisplayPrefix | internal/db/db.go:891-919 | the blobs of all versions of the selected files, each row once |
| Database.Database.ListBlobIDsByFileIDs | internal/db/db.go:1149-1178 | the blobs of all versions of these files, each row once |
| Database.Database.DeleteFilesByDisplayPrefix | internal/db/db.go:930-990 | removes the selected files and their versions and nothing else, or nothing |
| Selection.LikeIff | internal/db/db.go:899-905 | for any pattern, wildcards anywhere: LIKE holds exactly when the text can be cut so that each percent sign takes a stretch, each underscore one character, and each other character one that is the same up to ASCII case |
| Selection.SelectedIff | internal/db/db.go:899-905 | without wildcards a path is selected exactly when each character of the prefix is the one at its place or the same ASCII letter in the other case, 32 above or below it |
| Selection.AsciiBeginsIff | internal/db/db.go:899-905 | for an ASCII prefix that is so byte by byte |
| Selection.OtherLetterStays | internal/db/db.go:944-950 | a path that differs from the prefix in one byte, not only in its case, or ends before it, is not selected |
| Selection.DeletePrefix | internal/db/db.go:930-990 | the deletion by a prefix without wildcards takes exactly the files that begin with it letter by letter and their versions, or nothing |
| Database.Database.DeleteFilesByIDs | internal/db/db.go:1238-1265 | removes these files and their versions and nothing else, or nothing |
| Prefixes.LikeIsStartsWithIff | internal/db/db.go:888-906 | selection is by starting with the characters of the prefix for all paths exactly when the prefix has no wildcard and no ASCII letter |
| Prefixes.PrefixSelectsIff | internal/db/db.go:888-990 | the same for the files of a table: none that starts with the prefix is missed, and no other is hit in any table, exactly then |
| Utf8.StartsWithIff | internal/db/db.go:899-905 | a text begins with the characters of the prefix exactly when it begins with its bytes and the last character does not go on after them |
| Utf8.CharactersAreCodePoints | internal/db/db.go:899-905 | the characters LIKE counts in any text in UTF-8 are its code points, encoded as section 3 of RFC 3629 says |
| Prefixes.LikeWithoutPercent | internal/db/db.go:899-905 | without percent signs LIKE asks each character to be the one at its place up to ASCII case, an underscore taking any one character of any number of bytes |
| Prefixes.SelectsShorterIff | internal/db/db.go:1030-1050 | a path of fewer bytes than the prefix can be selected exactly when the prefix has a percent sign |
| Listing.ListDirectChildren | internal/db/db.go:1007-1085 | directories first, each kind by the bytes of its names; each directory once; each file that lies directly here once, marked files left out; no result exactly when a selected path has fewer bytes than the prefix |
| Listing.ReachedOnce | internal/db/db.go:1003-1076 | where LIKE keeps to the directories' prefixes, opening directories from the top lists a file in one place at most, under the directories its path names |
| Listing.ReachedIff | internal/db/db.go:1053-1076 | and it lists a live file exactly when no piece of its path is empty |
| Listing.ReachedTwiceIff | internal/db/db.go:1030-1076 | with no percent sign and no empty piece in the live paths, some file is listed in two places exactly when LIKE takes the prefix of opened directories, byte for byte, for the beginning of a path that does not begin with it |
| Listing.AlignedIsReachedTwiceIff | internal/db/db.go:1030-1076 | where the selections take characters of as many bytes, exactly when LIKE takes a directory of one live path for the beginning of another |
| Listing.WhenSelectionsAreAligned | internal/db/db.go:1030-1076 | they do where no live path has an underscore, and where all live paths are ASCII |
| Listing.ListedTwice | internal/db/db.go:1030-1046 | the case of a directory "a_" beside "ab": the file ab/y is listed in both |
| Listing.NotListedTwice | internal/db/db.go:1030-1060 | the case of "a_" beside "a" and a two-byte character: LIKE takes the one for the other, the slice leaves an empty name, and nothing is listed twice |
| Listing.OpeningCanPanic | internal/db/db.go:1030-1050 | the case of a directory "a%%" beside "a/b": opening it selects a path shorter than its prefix |
| Versions.RunIsSound | internal/db/db.go:445-716 | the invariant of the tables holds after any sequence of transactions |
| Versions.NumbersGrowIff | internal/db/db.go:490-522 | in any run, under any clock and evictions: each next number of a file is new exactly when its newest version is never deleted while others remain |
| Versions.GivenHaveNoGaps | internal/db/db.go:490-496 | the numbers a file was ever given are all those up to the largest |
| Versions.DeletingTopReuses | internal/db/db.go:679-716 | deleting the newest of several versions makes a number the next that has been given before |
| Versions.TheLastThreeRemain | internal/db/db.go:445-541 | when the clock ticks between uploads and nothing deletes versions, the rows are exactly the last three uploads, in the same order by id, number and time |
| Ties.LatestFollowsClock | internal/db/db.go:445-541 | under any clock, while nothing deletes versions of the file: its latest rows bear the greatest time an upload of it read, and are several exactly when several uploads read it |
| Ties.QueriesAgreeIff | internal/db/db.go:545-607 | so all queries for the latest version name the row the scan looks at exactly when one upload only read the greatest time |
| Protocol.NextKeepsInv | internal/agent/agent.go:589-658 | every step of every worker and purge, failing steps and crashes included, keeps the invariant of tables, store, uploads and purges |
| History.EveryStateIsGood | internal/agent/agent.go:589-658 | the invariant holds in every reachable state |
| History.EveryVersionIsStored | internal/agent/agent.go:589-658 | in every reachable state a version's blob, if stored, has the recorded hash and decrypts to the bytes read for it; it is missing only after a purge listed it |
| History.BackupsLoseNothing | internal/agent/agent.go:645-658 | without purges no failure and no crash loses a recorded version |
| History.StoredIsRecorded | internal/agent/agent.go:645-658 | if no step failed, between files the stored blobs are exactly the recorded ones |
| History.TextsAreFixed | internal/agent/agent.go:589-658 | the bytes read for a blob are recorded once and never change |
| History.ObjectsAreFixed | internal/agent/agent.go:589-658 | the bytes stored for a recorded version never change; they can only go |
| Backup.Agent.Transfer | internal/agent/agent.go:591-634 | the new remote object if the upload starts, whole on success and a part of it on failure, no other object touched, and exactly when the transfer succeeds and when it never returns |
| Backup.CallStallsIff | internal/agent/agent.go:591-634 | exactly when a call never returns: a compressed upload of something whose session does not start, or whose link gives out before the last frame |
| Backup.Agent.ProcessFile | internal/agent/agent.go:529-662 | which of skip (same size, same time and a recorded hash), retime, backup, error and never returning it is for each combination of checks and failures, and the tables and the store after each |
| Backup.UploadRecords | internal/agent/agent.go:636-651 | a backup leaves one row not there before, with the file's size, time and content hash, the stored bytes' hash, the blob, the job and the clock's reading, numbered one more than the greatest number of the file; its file has the source and display path and no mark; all other rows are as before |
| Refinement.ProcessFileRefines | internal/agent/agent.go:529-662 | from any good state one call of processFile, returning or not, is a run of one worker's protocol steps into a good state with the same tables and store |
| Refinement.StuckRun | internal/agent/agent.go:591-634 | the run behind a call that never returns: the worker keeps its blob and the part of an object it has sent |
| Refinement.PurgeRefines | internal/agent/purge.go:61-117 | from any good state one purge by prefix is a run of one purge's protocol steps that ends in a good state |
| Refinement.PurgeVersionRefines | internal/agent/purge.go:121-162 | the same for the purge of one version |
| Refinement.RetentionRefines | internal/agent/agent.go:438-523 | from any good state one retention pass, marks and purge, is a run of protocol steps that ends in a good state |
| Incremental.ProcessOne | internal/agent/agent.go:534-574 | one call that ends without an error gives its file a latest version with the content's hash or finds one, changes the rows of no other file, and uploads nothing for a file that has one; for a new file it ends so exactly when none of its calls fails |
| Incremental.BackupAll | internal/agent/agent.go:313-391 | after a run without errors every file's latest version has its content's hash; a run over such files uploads nothing and changes recorded times at most; a run in which nothing fails has no errors |
| Incremental.BackupTwice | internal/agent/agent.go:534-574 | so a second run over an unchanged source uploads nothing, and changes a row exactly when recording a new time had failed before and goes through now |
| Incremental.RetimesChangeIff | internal/agent/agent.go:567-574 | a run over settled files changes the tables exactly when some file's time is due and its update goes through |
| Concurrent.ProcessFileIsRun | internal/agent/agent.go:529-662 | one call of processFile is a run of the steps it is cut into where it reaches the tables or the remote store |
| Concurrent.NextKeepsInv | internal/agent/agent.go:313-391 | every step of every call, in any order, keeps what each call has found and done, and leaves the rows of other paths alone |
| Concurrent.BackupSettles | internal/agent/agent.go:313-391 | when all calls have returned without an error, in any interleaving, every file's latest version has its content's hash |
| Concurrent.SecondBackup | internal/agent/agent.go:313-391 | a second run, in any interleaving, uploads nothing and leaves the remote store alone at every moment, and changes a row exactly when recording a new time had failed before and goes through now |
| Concurrent.StartDecides | internal/agent/agent.go:534-634 | in every run the same calls hang: those for files whose rows at the start lead to an upload that stalls |
| Restore.RestoreOne | internal/agent/restore.go:122-181 | for any download, failing, cut short or split in any way: writes exactly what the delivered bytes decrypt to, clipped to the output's room, and ends with the right error |
| Restore.PresentNumberIsSelected | internal/agent/restore.go:136-141 | the number of a version still present selects that version, whatever the ties |
| Restore.RestoreGivesWhatWasBackedUp | internal/agent/restore.go:122-181 | in every reachable state, restoring a version number whose blob no purge has listed gives the bytes that were backed up as that version |
| Restore.RestoreRecorded | internal/agent/restore.go:122-181 | so restoreOne writes those bytes, as far as the output has room, and reports success exactly when it had |
| Restore.EarlyEndIsAcceptedIff | internal/transfer/sftp.go:191-215 | a download that ends early without an error is accepted exactly at the end of the header or of a frame, and what is written then |
| Restore.BackedUpComesBack | internal/agent/restore.go:122-181 | with backups and evictions only, that holds for every version in the table |
| Restore.SelectedBearsTheNumberIff | internal/agent/restore.go:142-149 | the version selected for a positive number bears it exactly when the file has such a version; otherwise numbers up to the count select some other version |
| Restore.VersionOneGivesVersionFour | internal/agent/restore.go:142-149 | the case of four backups of one file: asking for version 1 restores version 4 |
| Restore.RestoreFetches | internal/agent/restore.go:122-150 | after any run in which the file's versions go only by eviction, under a ticking clock: 0 fetches the last upload, a number among the last three that upload, any other up to three the upload that many places from the end, and nothing else anything |
| Scan.ListLatestVersionsForScan | internal/db/db.go:545-573 | exactly one entry for each file whose latest row, by time and then id, has a blob hash, and nothing else, in the order of the source paths' bytes |
| Scan.Scope | internal/agent/scan.go:56-64 | the in-place filter keeps exactly the entries below the source directories, in order |
| Scan.InScopeIsThere | internal/agent/scan.go:56-64 | an entry is in scope exactly when it is listed and its path lies below one of the directories |
| Scan.NoFalseAlarm | internal/agent/scan.go:52-113 | an entry listed in one reachable state and hashed in a later one is never inconsistent, and its blob is missing only when a purge has listed it or no version refers to it any more |
| Scan.ScanDetects | internal/agent/scan.go:97-114 | an entry listed in a reachable state, checked against a store changed in any way from outside: errored exactly when the blob is absent, matching exactly when the bytes are those stored for that version, inconsistent exactly when they differ, where the hash tells the two apart |
| Scan.ScanReports | internal/agent/scan.go:75-128 | where every run of an uncancelled scan ends, the counters are the numbers of entries with that finding |
| Purge.PurgeByPrefixWithReport | internal/agent/purge.go:61-117 | the blobs listed are those of the rows selected, the report adds up, rows are removed exactly when the loop got through and the transaction commits |
| Selection.PurgePrefix | internal/agent/purge.go:61-117 | without wildcards and however the purge ends: no object goes but those of versions whose files begin with the prefix letter by letter, no row but those, and all of them when it completes |
| Purge.PurgeWithRetries | internal/agent/purge.go:50-53 | any number of cancelled or failed attempts and one that completes leave tables and store as one uninterrupted purge does, when no deletion breaks |
| Purge.PurgeFileVersion | internal/agent/purge.go:121-162 | the remote object first, then the row; a broken deletion or an absent version changes nothing |
| Retention.ApplyDeletedSourceRetention | internal/agent/agent.go:438-523 | the whole pass with all its failures: marks, remote deletions and errors exactly, and the expired rows gone exactly when the deletions got through and the transaction commits |
| Lifecycles.EveryMarkHasAnOrigin | internal/agent/agent.go:467-473 | every mark was set by one earlier pass that covered the path and missed it, and has stood since |
| Lifecycles.PurgedOnlyAfterRetention | internal/agent/agent.go:474-478 | a record is purged only when such a pass marked it more than the retention time less one second ago, no covering pass has found it and cleared the mark since, and it was not backed up |
| Lifecycles.RetentionDurationIsExactIff | internal/db/db.go:106-118 | the int64 duration is the days or weeks asked for exactly up to 106751 or 15250 |
| Lifecycles.RetentionDurationCanWrap | internal/db/db.go:106-118 | past that it can become less than half an hour |
| Paths.ParseOfJoin | internal/agent/agent.go:356-379 | the path of a directory entry has the directory's segments and the entry's name |
| Paths.UnderIsAncestor | internal/agent/agent.go:425-434 | the string test is exactly "the same path or below it, segment by segment", and nothing is below "/" or "." |
| Paths.WithinAndExcludedIff | internal/agent/agent.go:714-731 | a path is excluded exactly when a regex takes it or it is at or below a nonempty entry of the list, segment by segment, and within the sources exactly when it is at or below one of them |
| Paths.NameAndDotsVanish | internal/agent/agent.go:426-428 | a name followed by ".." means nothing, wherever in a path it stands |
| Paths.NothingBetweenSlashes | internal/agent/agent.go:426-428 | nor do a dot or nothing between two slashes |
| Paths.DotsInFront | internal/agent/agent.go:426-428 | ".." at the top of a rooted path means nothing, and at the front of a relative one stays |
| Walk.Walker.WalkSources | internal/agent/agent.go:351-391 | the pruned walk over all source directories enqueues and marks as seen exactly the paths of the recursive definition, in order |
| Walk.EnqueuedIsReached | internal/agent/agent.go:356-386 | whatever is enqueued is a delivered file that no excluded directory cuts off |
| Walk.ReachedIsEnqueued | internal/agent/agent.go:356-386 | every such file is enqueued |
| Walk.ExclusionGoesDown | internal/agent/agent.go:714-731 | with proper exclude entries and regexes that go down the tree, being cut off is being excluded oneself |
| Walk.WalkIsExact | internal/agent/agent.go:356-386 | then, without failing reads, the walk enqueues exactly the files that isExcluded does not reject |
| Walk.PresentFilesAreSafe | internal/agent/agent.go:454-478 | then a present file is not marked, is unmarked, and is not purged |
| Walk.OnlyCoveredRecordsChange | internal/agent/agent.go:425-457 | a pass changes no record outside the job's directories other than "/" and "." |
| Walk.ExcludedRecordsStay | internal/agent/agent.go:356-478 | a record at or below an entry of the exclusion list, or taken by a regex, is neither seen by the walk nor marked, unmarked or purged |
| Walk.PresentFileIsMarkedIff | internal/agent/agent.go:356-473 | without those hypotheses: a covered record is marked exactly when every way to it was cut off or not delivered |
| Walk.SkippedFileIsPurged | internal/agent/agent.go:356-478 | the case of a regex that matches the directory /s/d and not /s/d/f: the present file is marked, and purged after the retention time |
| WorkerPool.NextKeepsInv | internal/agent/agent.go:313-391 | every step keeps each enqueued item in exactly one place and the totals equal to the sums of the answers |
| WorkerPool.RunsEnd | internal/agent/agent.go:313-394 | no interleaving is longer than a bound in the items and workers |
| WorkerPool.PoolDoesItsWork | internal/agent/agent.go:313-394 | with a connected worker: where every interleaving ends, each enqueued item is in one place and none is handed over twice, the totals are right, and the run is over exactly when no worker waits for a call that never returns |
| WorkerPool.RunIsOverIff | internal/agent/agent.go:313-394 | without a cancellation the run is over exactly when no item of the walk is one whose call never returns |
| Concurrent.BackupIsOverIff | internal/agent/agent.go:313-394 | so the run over these files is over exactly when none of them gets as far as a compressed upload whose link gives out before the last frame |
| WorkerPool.NobodyConnects | internal/agent/agent.go:324-334 | without one nothing is handled and no error is counted, and the run ends exactly when all items fit in the queue |
| WorkerPool.NobodyConnectsCanHangIff | internal/agent/agent.go:324-391 | a run without connections can wait forever exactly when there are more items than the queue holds |
| ScanPool.RunsEnd | internal/agent/scan.go:67-128 | no interleaving of a scan is longer than a bound |
| ScanPool.ScanChecksEverything | internal/agent/scan.go:67-128 | without a cancellation every entry is checked exactly once and the counters split them into matching, inconsistent and errored |
| ScanPool.NothingIsCheckedTwice | internal/agent/scan.go:75-115 | however it is cancelled, no entry is checked twice |
| ScanPool.ScanCanHangIff | internal/agent/scan.go:75-127 | a cancelled scan can hang exactly when there are more entries than the queue and the workers hold |
| Pipes.RunsEnd | internal/agent/encrypt.go:57-75 | every schedule of two stages joined by a pipe ends |
| Pipes.PipeOutcome | internal/agent/encrypt.go:57-75 | where every schedule of two stages ends: in a hang exactly when the reader stops short and nobody closes the read end; else the caller sees no error exactly when neither stage had one and everything was taken |
| Pipes.DecryptingEnds | internal/agent/encrypt.go:214-243 | decryption of a compressed blob always returns, without an error exactly when decryption, gunzip and output all succeed |
| Pipes.UploadingEnds | internal/agent/agent.go:613-634 | an upload whose encryption returns always returns, without an error exactly when everything was sent and accepted |
| Pipes.CompressingEndsIff | internal/agent/encrypt.go:57-75 | the compressing encryption never returns exactly when the sink gives out before the last frame; else it succeeds exactly when source and sink do |
| Pipes.FailuresAreReported | internal/agent/agent.go:618-634 | a stage that fails makes the caller fail |
| ShellQuote.QuoteReadsBack | internal/transfer/sftp.go:91-96 | anywhere in a command, inside a word or at its start, a quoted text without NUL adds exactly itself to the word (sections 2.2.1 and 2.2.2 of the POSIX.1-2017 Shell Command Language) |
| ShellQuote.QuoteIsOneWordIff | internal/transfer/sftp.go:94-96 | the shell reads a quoted text as that one word exactly when it has no NUL |
| ShellQuote.QuotingIsNeeded | internal/transfer/sftp.go:91-96 | a text with a character that section 2.2 of the POSIX.1-2017 Shell Command Language wants quoted is not read as that one word without quotes |
| ShellQuote.CommandReadsBack | internal/transfer/sftp.go:208-222 | "cat" and "sha256sum" with a quoted path read back as the program and the path |
| ShellQuote.UploadReadsBack | internal/transfer/sftp.go:136-136 | the upload command redirects to the quoted path and nowhere else |
| ShellQuote.ValidateBlobID | internal/transfer/sftp.go:98-109 | accepts exactly the texts of the characters 0 to 9, a to f, A to F and hyphen, the empty one included |
| ShellQuote.BlobPathIsBelow | internal/transfer/sftp.go:84-159 | the path of an accepted id is two segments below the remote directory |
| ShellQuote.BlobPathsDiffer | internal/transfer/sftp.go:84-159 | different accepted ids have different paths |

## Left out

- Container.DecryptFile: passes the decrypted stream to gunzip as a whole; the concurrency of that pipe is modelled in Pipes, not in the method.
- Container.CompressAndEncryptFile: the compressed stream reaches the encryption as a whole; the schedules of the two stages are in Pipes.
- Container.EncryptWithMagic: a failing random source is not modelled; the reused buffers are values.
- Backup.Agent.ProcessFile: the hash and the upload read the file separately, as in the code, so the recorded content hash is that of the first reading; display paths come with the file instead of being computed; a failing query for the latest version is one with a failing stat.
- Incremental.BackupAll: one file after the other; Concurrent has every interleaving. That equal size and time mean equal content is a hypothesis (Ready).
- Concurrent.SecondBackup: each file under its own path; a path that overlapping source directories give twice is in Incremental.BackupTwice alone.
- Database.Like: characters are compared by their bytes, so two malformed encodings that SQLite reads as the same replacement character count as different; a NUL in a path is not modelled.
- Prefixes.SelectsShorterIff: for prefixes in which no continuation byte follows an ASCII byte, as in UTF-8.
- Lifecycles.PurgedOnlyAfterRetention: marks are read back as the seconds that were stored; a mark that cannot be parsed is not modelled.
- Walk.Walker.WalkDir: directory trees are values, so a tree that changes during the walk, symbolic links and a walk that is cancelled are not modelled; after a cancellation no retention pass runs.
- Listing.ListDirectChildren: the order of children with equal names is left open, as sort.Slice leaves it.
- ScanPool.ScanChecksEverything: the messages and the truncated list of paths are left out.
- Purge.PurgeWithRetries: supposes that nothing else runs meanwhile; a deletion that breaks leaves its object behind while the rows go, which Purge.PurgeByPrefixWithReport states.
- Commits whose outcome is unknown to the caller: a transaction either commits and says so or changes nothing.
- SQLite itself, migrations, WAL, the jobs and schedules tables, and per-file error records.
- SSH and SFTP sessions, timeouts, `df` parsing, and everything a remote shell does besides reading its command line.
- HTTP handlers, sessions, notifications, the web pages, the command line and configuration files.
- Cron parsing and firing, and live status fields.
- RestoreByPrefix and RestoreFile beyond restoreOne: paths of restored files and counters.
- Regular expressions: a regex is any predicate on paths.
