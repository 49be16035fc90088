# Verified model of arqinator's restore path

arqinator restores files from Arq backups. This project models the code between a path on
the command line and the bytes of the restored files, and proves what that code does: how
a path string is resolved against a tree of content-addressed trees, how a directory is
copied, how blobs are concatenated into a file, how an object is found through the pack
indexes and decrypted, how the binary formats of every version are read, and how the
download cache is filled by concurrent workers that validate, delete and retry.

| file | models |
|---|---|
| `Buffers.dfy` | bytes, big-endian integers, `bytes.Buffer` |
| `Wire.dfy` | strings, booleans, dates, data, hex SHA1s, headers, counted loops (`arq/types`) |
| `TreeFormat.dfy` | blob keys, nodes, trees (`arq/types`) |
| `CommitFormat.dfy` | commits (`arq/types/commit.go`) |
| `Crypto.dfy` | `Decrypt` and `bytesToKey` (`crypto/crypto.go`) |
| `PackIndex.dfy` | index lookup and object framing (`arq/pack_set_index.go`) |
| `Cache.dfy` | connectors, pack checksum, fetching an object (`connector`, `arq/pack.go`, `arq/pack_set_index.go`) |
| `PackSetCaching.dfy` | `cachePackSet` as a transition system (`arq/backup_set.go`) |
| `PackStore.dfy` | trees and commits out of packs (`arq/pack_set_index.go`) |
| `Paths.dfy` | `path.Clean`, `path.Join`, `strings.Split` |
| `TargetPaths.dfy` | the target strings of `FindNode` and what is left of them after each cut |
| `PathResolution.dfy` | `FindNode` (`arq/pack_set_index.go`) |
| `FileRestore.dfy` | `BlobKeysReader`, `DownloadNode` and the file system (`arq/repo.go`) |
| `TreeRestore.dfy` | `DownloadTree` and `recover` (`arq/repo.go`, `main.go`) |

Conventions:

- A Go string is a sequence of bytes. A Go run-time panic is a value (`Panic`, `Crash`,
  `Crashed`, ...), so that the model says when the program dies and not only what it
  returns. Integers are 64-bit Go integers written out: a length of 2^63 or more becomes a
  negative `int`, subtracting 1 from the byte 0 gives 255, a millisecond count times
  1,000,000 wraps.
- The readers consume a `Buffer` object step by step. Each `ReadX` is proved to do what a
  function `ParseX` of the unread bytes says, both in its result and in what it leaves
  unread; `PutX(x, s)` is the encoding of x followed by s, and the round-trip lemmas
  connect the two. Struct fields that nodes and trees read in the same order are grouped
  into records.
- SHA1, AES, gzip and the decoding of a commit's Location are parameters: any functions
  (AES any permutation of 16-byte blocks). What a download meets and how goroutines are
  scheduled are parameters too, and every theorem is about all of them.
- The file system maps path components to directories and files.

## Results that are not what one would expect

- An object whose SHA1 begins with the byte 0 is never found in any pack index
  (`PackIndex.LookupIsLinearScan`, `PackIndex.NothingLocated`).
- Trees below version 12 can be read only if none of their nodes has a data key; any other
  such tree panics (`TreeFormat.TreeRoundTrip`).
- A bare ciphertext that happens to begin with the prefix `encrypted` is never accepted
  (`Crypto.DecryptSealed`).
- After a first download that leaves no file, the retry of a pack file is never made,
  because deleting the missing file fails: over S3 and Google Cloud a failed download is
  final, over SFTP it is not (`Cache.HealsExactly`, `Cache.FailureToOpenIsFinalOnS3`).
- The check that a target lies below the commit's path compares strings only. A target that
  runs on from the commit's path without a slash resolves exactly if what it runs on with
  cleans to ".": for the commit path `/a/b` the targets `/a/b.`, `/a/b./.` and `/a/bx/..` are
  all taken for `/a/b` itself (`PathResolution.BesideFoundExactly`,
  `PathResolution.SiblingsParent`). So are `/a/b/..` and everything else that climbs out from
  it (`PathResolution.AboveIsRoot`).
- Dots and doubled slashes between names lead nowhere: below the commit's path `/x/./y` and
  `//x/y` are not found although `/x/y` is. A target resolves only if it is written as the
  names it cleans to and an end that leads back to where it starts, such as `/`, `/.` or
  `/z/..` (`PathResolution.FindNodeExactly`).
- A node named `..` makes the restore of its directory come back to that directory for ever,
  and a node named `../b.` in the root of `/a/b` would be written beside the destination
  (`TreeRestore.ParentNameReturns`, `TreeRestore.SlashedNameEscapes`).
- A worker that panics while packs are being cached still signals, and the call can return
  before the process ends, with an index in the cache that is not valid
  (`PackSetCaching.ReturnsDespitePanic`, `PackSetCaching.ReturnedValidExactly`).
- A commit that cannot be read to its end is used all the same, with the path and the tree
  that were read (`PackStore.GetPackFileAsCommit`, `CommitFormat.ShownSurvivesTail`).
- A node of the wanted name without data keys makes path resolution panic
  (`PathResolution.ScanPanicsExactly`).
- A directory is reported as recovered although nothing is written when the destination's
  parent does not exist, or when the source directory's own tree is missing
  (`TreeRestore.Recover`).

## Model

| member | source | states |
|---|---|---|
| `TreeRestore.Recover` | main.go:269-309 | for every clean commit path and every source string: an existing destination, a source that is not below the commit's path, does not spell out names or leads nowhere, or a panic while looking it up, leaves the file system alone; a file source writes one file; a directory source changes nothing outside the destination, and, if the source path names the directory it resolves to, panics exactly if a node of that very tree, or of one below it, makes it panic, and otherwise leaves exactly the backup's entries there |
| `TreeRestore.DownloadTree` | arq/repo.go:97-138 | although every child is looked up again from the root by string, the result is the plain recursive image of the tree, entry by entry, for duplicate names too, if it does not panic, and it panics exactly if `TreePanics` says so of the disk before; even then it has only made entries of the tree; as long as the names are file names it ends, by Merkle rank, and changes nothing outside the destination, also for a source path that does not name what it resolves to |
| `TreeRestore.DownloadChild` | arq/repo.go:119-135 | one turn of the loop: panics exactly if this node makes the restore panic, and otherwise goes on |
| `TreeRestore.NamelessOrKeylessPanics` | arq/pack_set_index.go:111-115 | a restore always panics on a node without a name or without data keys, an empty file for one |
| `TreeRestore.NilFirstKeyPanics` | arq/pack_set_index.go:89 | and on the last node of a name whose first data key has no SHA1 |
| `TreeRestore.LastNodePanicsExactly` | arq/repo.go:122-135 | in a tree whose nodes all have names and data keys, the last node of a name panics exactly if its first key is nil or leads to a tree whose reading panics, or it is a directory whose restore panics, or a file that can be opened and given its size and whose blobs before a nil key are all there |
| `TreeRestore.GoodNeverPanics` | arq/repo.go:119-135 | the restore of a tree with only good nodes never panics |
| `TreeRestore.PanicsKept` | arq/repo.go:119-135 | whether a restore panics can be told from the disk before it as well as while it goes on, for duplicate names too |
| `TreeRestore.EntryOfLastNode` | arq/repo.go:119-135 | what the image of a tree holds at a name is the file or the directory of the last node that has it |
| `TreeRestore.ChildFound` | arq/repo.go:119-126 | the string path built for a child resolves to the last node of that name in the tree being copied and to that node's tree; it never leads nowhere, and panics exactly if scanning the tree does or that node's first key cannot be followed |
| `TreeRestore.StrayChild` | arq/repo.go:119-128 | below a source path that resolves to the commit's root without naming it, a child is not found, or it is that root again, under a path that is less astray |
| `TreeRestore.ParentNameReturns` | arq/repo.go:119-128 | a child named ".." resolves to the directory above, whose restore comes to this directory again |
| `TreeRestore.SlashedNameEscapes` | arq/repo.go:120-130 | in the root of /a/b a child named "../b." resolves to that root again and is written beside the destination |
| `TreeRestore.DamagedStaysGood` | arq/repo.go:101-107 | missing trees and blobs turn no good node below a tree into a bad one: the restore of a damaged backup panics only if that of the whole one does |
| `TreeRestore.BestEffort` | arq/repo.go:101-107 | against a run on the complete backup, a run with trees or blobs missing leaves every file and directory with nothing missing on its way exactly the same, and adds nothing |
| `TreeRestore.IntactEntry` | arq/repo.go:119-135 | an entry is the same in the damaged and the whole backup when no tree above it and none of its blobs is gone |
| `TreeRestore.DamageInventsNothing` | arq/repo.go:101-107 | a damaged backup has no entry that the whole one does not have with the same kind |
| `TreeRestore.FoundLeads` | arq/pack_set_index.go:84-124 | the tree returned for a resolved path is the one under which every longer path resolves |
| `PathResolution.FindNode` | arq/pack_set_index.go:69-125 | the loop over current node, hash and path string computes the walk, in the stated number of iterations |
| `PathResolution.FindNodeExactly` | arq/pack_set_index.go:78-124 | for every target string that begins with the commit's path: if it spells out the names it cleans to, following these names from the root, with the same failures and panics, in at most one iteration more than there are names; if not, no node is found |
| `PathResolution.FindNodeIsDescend` | arq/pack_set_index.go:69-125 | resolving the path of any names below the commit's path, with any trailing slashes or other idle end, is following the names from the root |
| `PathResolution.WalkIsDescend` | arq/pack_set_index.go:87-124 | at every iteration the target is the current path and what is left of it, and that decides the end |
| `PathResolution.LostForever` | arq/pack_set_index.go:91-97 | once the current path is no prefix of the target, the first name of the whole target is looked for again and again, and no node is found |
| `PathResolution.BesideFoundExactly` | arq/pack_set_index.go:78-108 | a target that runs on from the commit's path without a slash passes the check; it resolves exactly when what it runs on with cleans to ".", and then to the commit's root |
| `PathResolution.AboveIsRoot` | arq/pack_set_index.go:91-95 | a target that climbs back to the commit's path or above it resolves to the commit's root |
| `PathResolution.SiblingsParent` | arq/pack_set_index.go:78-108 | for the commit path /a/b and any name x, /a/bx/.. names /a and resolves to the root of /a/b |
| `TargetPaths.NextIsFirstName` | arq/pack_set_index.go:91-97 | trimming, cleaning and splitting yields the first name of what is left of the target, or "." when nothing is |
| `TargetPaths.FollowsStep` | arq/pack_set_index.go:91-123 | cutting off the first name keeps whether the target spells out its names |
| `TargetPaths.RunOnHasNames` | arq/pack_set_index.go:91-97 | when the target runs on past the name just taken, something is left to look for |
| `TargetPaths.SlashesAreIdle` | arq/pack_set_index.go:92-95 | any number of trailing slashes is an idle end |
| `TargetPaths.SpelledParts` | arq/pack_set_index.go:91-97 | a target that spells out names stands for the commit's path and these names |
| `TargetPaths.RootNamed` | arq/pack_set_index.go:91-95 | a target that resolves to the commit's root and stands for something at or below the commit's path stands for that path |
| `Paths.FoldDips` | arq/pack_set_index.go:92 | cleaning with one directory more in front: either the rest never climbs to it, or it makes no difference |
| `PathResolution.DescendNowhere` | arq/pack_set_index.go:88-111 | a nil SHA1, a tree whose reading panics and a missing tree: which of them panic, and when |
| `PathResolution.DescendInto` | arq/pack_set_index.go:111-117 | a name leads to the tree under the first data key of the last node of that name, and is not found exactly if no node has it |
| `PathResolution.NotBelowFails` | arq/pack_set_index.go:72-82 | a missing commit, or a target that does not begin with the commit's path, is an error |
| `PathResolution.FindInNodes` | arq/pack_set_index.go:110-117 | the loop over the nodes computes the scan |
| `PathResolution.ScanIsLastMatch` | arq/pack_set_index.go:110-117 | the scan returns the last node of the name, or none exactly if there is none |
| `PathResolution.ScanPanicsExactly` | arq/pack_set_index.go:111-115 | the scan panics exactly if some node has a nil name or a matching node has no data key |
| `PathResolution.DescendAppend` | arq/pack_set_index.go:88-124 | following names in two parts is following them in one |
| `Paths.SeparatorBytes` | arq/pack_set_index.go:93-97 | the slash and the dots in bytes |
| `Paths.PartsOfJoin` | arq/repo.go:120-121 | joining a file name to any path, clean or not, adds exactly that component |
| `Paths.PartsOfRender` | arq/pack_set_index.go:91-97 | a cleaned path, with any trailing slashes, stands for the components it was made of |
| `Paths.CleanParts` | arq/pack_set_index.go:92 | cleaning a path does not change what it stands for |
| `FileRestore.BlobKeysReader.Read` | arq/repo.go:160-194 | one Read of the stateful reader: its bytes, its error and its new state, for any non-empty buffer |
| `FileRestore.ReadsConcatenation` | arq/repo.go:160-194 | for every sequence of buffer sizes the bytes read are a prefix of the blobs before the first unreadable one; the end comes only after all of them, EOF only if all blobs were readable, within bytes + blobs + 1 reads |
| `FileRestore.ReadStepProgress` | arq/repo.go:186-194 | a Read hands out the next pending bytes and loses none, the swallowed EOF of a blob reader included |
| `FileRestore.EofMeansReadable` | arq/repo.go:164-166 | the stream ends with EOF exactly if every blob can be read |
| `FileRestore.NilKeyExactly` | arq/repo.go:167-172 | reading panics exactly on a data key without a SHA1 with only present blobs before it |
| `FileRestore.StreamExactly` | arq/repo.go:167-183 | what is read is one blob after another, up to the first that is missing |
| `FileRestore.NodeContentsExactly` | arq/repo.go:67-92 | the restored bytes begin with the blobs, are as long as the recorded size or longer if the blobs are, and are 0 behind the blobs |
| `FileRestore.Copy` | arq/repo.go:92 | the copy loop writes exactly the pending stream and ends as the reader ends |
| `FileRestore.DownloadNode` | arq/repo.go:59-95 | the file ends as the blobs before the first unreadable one, padded with zeros to the recorded size, flushed before it is closed on every path but that of a size beyond int64, which leaves it open; other entries are unchanged; the exact cases of an error and of a panic |
| `FileRestore.OverwriteLaid` | arq/repo.go:67-72 | writing at the current position of a pre-sized file extends the data and keeps the zeros after it |
| `PackSetCaching.ReturnedMeansValid` | arq/backup_set.go:192-251 | in every interleaving, if the call returns and no worker has panicked every listed object was processed and every listed key that ends in the bytes of ".index" has a cache file that passes the checksum |
| `PackSetCaching.IndexKeysExactly` | arq/backup_set.go:211-214 | the objects to cache are exactly those whose key ends in the bytes of ".index" |
| `PackSetCaching.ReturnedValidExactly` | arq/backup_set.go:205-250 | with distinct keys, when the call returns every listed index key has a valid file exactly if no worker has panicked |
| `PackSetCaching.ReturnsDespitePanic` | arq/backup_set.go:208-248 | a worker that panics over a cache directory that cannot be written signals first, and the call returns |
| `PackSetCaching.ObjectsConserved` | arq/backup_set.go:199-246 | in every interleaving each listed object is pending, held by exactly the one worker that received it, or processed; none is fetched or checked more than twice |
| `PackSetCaching.AlwaysEnds` | arq/backup_set.go:204-250 | every run makes a bounded number of steps and can always go on until it returns or the process ends |
| `PackSetCaching.SendNeverBlocks` | arq/backup_set.go:205-208 | a worker that has to signal, at its end or because it panics, finds room in the done channel |
| `PackSetCaching.NoDeadlock` | arq/backup_set.go:205-249 | a call that has not returned, in a process that has not ended, can move |
| `PackSetCaching.MovesBounded` | arq/backup_set.go:209-245 | the steps still possible are bounded by a measure that every step lowers |
| `PackSetCaching.ScheduleIndependent` | arq/backup_set.go:199-249 | with distinct keys a worker panics only if some object fails on its own; if none has panicked when the call returns, none fails, and then each cache entry is that object's own outcome; all other entries are untouched in any case |
| `PackSetCaching.SameCache` | arq/backup_set.go:199-249 | if one schedule returns without a panic, every schedule that returns leaves the same cache |
| `PackSetCaching.StepKeepsPartition` | arq/backup_set.go:209-245 | every step keeps pending, in-flight and processed objects a partition of the listing |
| `PackSetCaching.StepKeepsChecked` | arq/backup_set.go:221-243 | every step keeps each processed key valid or in the hands of a worker that will check it |
| `PackSetCaching.StepKeepsDetermined` | arq/backup_set.go:221-243 | every step keeps the files a function of where the workers stand |
| `Cache.Connection.Get` | connector/s3.go:162-196 | the cache entry after a download, for each kind of failure and for each connector |
| `Cache.GetExactly` | connector/sftp.go:243-266 | what each backend leaves in the cache, and reports, after each kind of download |
| `Cache.Connection.CachedGet` | connector/sftp.go:205-225 | downloads exactly if the entry is absent or empty, and returns an error exactly if that download does |
| `Cache.IsValidPackFile` | arq/pack.go:37-74 | true exactly for more than 20 bytes of which the last 20 are the SHA1 of the rest |
| `Cache.ChecksummedExactly` | arq/pack.go:45-73 | the valid files are exactly a non-empty content followed by its own SHA1 |
| `Cache.GetObjectFromPackFile` | arq/pack_set_index.go:457-520 | the result, the whole cache after it and the number of downloads, at most two; only checksum-valid contents are parsed |
| `Cache.SuccessStays` | arq/pack_set_index.go:457-478 | once a call has succeeded for a pack, every later call for it gives the same contents without a download, whatever is fetched in between and whatever the remote has become |
| `Cache.FailuresBounded` | arq/pack_set_index.go:457-478 | if the remote is honest from the n-th download on, at most n calls ever fail, for any sequence of calls over any packs |
| `Cache.FailureDownloads` | arq/pack_set_index.go:457-478 | a call that fails has made a download, and began before the remote was honest |
| `Cache.SelfHealing` | arq/pack_set_index.go:457-478 | from any starting entry, honest downloads, or a truncated non-empty one and then an honest one, end with the good file or an already valid one |
| `Cache.HealsExactly` | arq/pack_set_index.go:462-478 | with an honest second download, the sequence fails exactly if the first CachedGet leaves no file to delete |
| `Cache.FailureToOpenIsFinalOnS3` | connector/s3.go:190-194 | the same two downloads heal over SFTP and fail over S3 |
| `Cache.GetPackFile` | arq/pack_set_index.go:258-326 | lookup, cache, framing, decryption and optional decompression in one result; with all packs cached and valid, no download and no change |
| `Cache.FetchFailsExactly` | arq/pack_set_index.go:290-309 | the cases that are errors and no panics: not located, no valid pack, an offset beyond int64, an object that cannot be read or decrypted |
| `Cache.PackKeyBytes` | arq/pack_set_index.go:445-449 | the key of a pack is its directory, its name and ".pack" |
| `Cache.FetchReturnsObject` | arq/pack_set_index.go:258-326 | with a valid pack whose offsets are the running sums of framed lengths, fetching a SHA1 with non-zero first byte returns the decrypted, if possible decompressed, data of its object, whatever follows it |
| `PackStore.GetPackFileAsTree` | arq/pack_set_index.go:140-158 | the tree is the parse of the fetched bytes; once the packs are cached and valid, every call answers what one fixed backup holds, the one that path resolution and restore are stated for |
| `PackStore.StoreIsBackup` | arq/pack_set_index.go:258-326 | the packs and the blobs outside them amount to finite maps from SHA1s to trees, to trees whose reading panics, and to bytes |
| `PackStore.GetPackFileAsCommit` | arq/pack_set_index.go:127-138 | path and root are those the commit shows when the error of reading it is dropped |
| `PackStore.TreeOfExactly` | arq/pack_set_index.go:142-157 | what cannot be fetched or read is an error, and what panics panics |
| `PackStore.StoredTreeIsFetched` | arq/pack_set_index.go:142-158 | a tree stored, sealed and indexed in a pack comes back as that tree |
| `Buffers.U32Bytes` | arq/types/node.go:109 | four bytes, most significant first |
| `Buffers.U64Bytes` | arq/types/commit.go:101 | eight bytes, most significant first |
| `Buffers.ShortIntegers` | arq/types/node.go:155 | an integer that is cut off reads as 0 and drains the buffer |
| `Buffers.SignedIntegers` | arq/types/node.go:192-196 | two's complement |
| `PackIndex.SearchIndex` | arq/pack_set_index.go:271-287 | the loop over one index file computes the bucketed lookup, its panic on a short file included |
| `PackIndex.LookupIsLinearScan` | arq/pack_set_index.go:274-287 | for every index with cumulative fanout and grouped records the bucket scan finds what a linear scan finds when the first byte is not 0, and nothing when it is 0 |
| `PackIndex.WrittenIsIndex` | arq/pack_set_index.go:160-171 | an index file written as eight bytes, 256 cumulative counts and 40-byte records is an index of these records, so that the lookups find what was written |
| `PackIndex.RecordRoundTrip` | arq/pack_set_index.go:166-171 | a record of offset, length, SHA1 and padding reads back |
| `PackIndex.CutBucketPanics` | arq/pack_set_index.go:280-282 | a file that ends inside the bucket panics exactly if no whole record before the end has the SHA1 |
| `PackIndex.FanoutExactly` | arq/pack_set_index.go:160-164 | which four bytes are the count for a first byte; a file too short for the table has none |
| `PackIndex.BucketBounds` | arq/pack_set_index.go:274-279 | the records of one first byte lie exactly between two fanout counts |
| `PackIndex.FirstIn` | arq/pack_set_index.go:280-287 | the first record with the SHA1 in a range, or none exactly if there is none |
| `PackIndex.FindPackIndexObject` | arq/pack_set_index.go:264-288 | the loop over the index files computes the location |
| `PackIndex.LocatePanicsExactly` | arq/pack_set_index.go:266-288 | the search panics exactly if it does so in some index file |
| `PackIndex.LastFileWins` | arq/pack_set_index.go:266-288 | across index files the record of the last file that has the SHA1 is returned |
| `PackIndex.NothingLocated` | arq/pack_set_index.go:290-295 | nothing is found exactly if no file has the SHA1 or its first byte is 0 |
| `PackIndex.NewPackFileObject` | arq/pack_set_index.go:423-443 | the reader of one framed object, with its ignored error, its short-data error and its panic |
| `PackIndex.PackObjectRoundTrip` | arq/pack_set_index.go:423-443 | reading an encoded object returns it and leaves what follows |
| `PackIndex.CutObject` | arq/pack_set_index.go:435-441 | data that is cut off is an error, a length beyond int64 a panic, a missing length reads as 0 |
| `PackIndex.ObjectAtOffset` | arq/pack_set_index.go:487-514 | at the running sum of framed lengths the pack continues with that object |
| `TreeFormat.ReadTree` | arq/types/tree.go:102-171 | for every input, whatever its version: the tree, error or panic of the function the round trip is proved about, and the same bytes left unread, always a suffix of the input |
| `TreeFormat.TreeRoundTrip` | arq/types/tree.go:102-171 | at every version reading an encoded tree returns it, null-SHA1 xattr and ACL keys collapsed to nil, and leaves exactly the suffix; it panics exactly on nodes with data keys below version 12 |
| `TreeFormat.EncodedTreeRoundTrip` | arq/types/tree.go:102-171 | reading encode(t) ++ s gives t and leaves s |
| `TreeFormat.TreeEncodingPrefixFree` | arq/types/tree.go:102-171 | no encoding is a proper prefix of another, and equal encodings are of equal trees, null keys and trees that cannot be read included |
| `TreeFormat.TreeHeadRoundTrip` | arq/types/tree.go:102-157 | the part before the nodes, with its version ranges |
| `TreeFormat.TimesRoundTrip` | arq/types/tree.go:149-157 | the fields present in versions 11 to 16 and from 15 on |
| `TreeFormat.ReadNodes` | arq/types/node.go:107-121 | the counted loop, in at most (remaining bytes + 1) calls whatever count is declared |
| `TreeFormat.ReadNode` | arq/types/node.go:123-224 | for every input: the value, error or panic of the function its round trip is proved about, and the same suffix left unread |
| `TreeFormat.NodeRoundTrip` | arq/types/node.go:123-224 | reading an encoded node returns it, or panics exactly if it has data keys below version 12 |
| `TreeFormat.ReadDataKeys` | arq/types/node.go:154-165 | the inner counted loop with its panic, in at most (remaining bytes + 1) calls |
| `TreeFormat.DataKeysRoundTrip` | arq/types/node.go:154-165 | the data keys come back, or a nil flag panics |
| `TreeFormat.AttributesRoundTrip` | arq/types/node.go:177-191 | xattr and ACL keys, collapsed when their SHA1 is null |
| `TreeFormat.ReadBlobKey` | arq/types/blob_key.go:70-107 | for every input: the value, error or panic of the function its round trip is proved about, and the same suffix left unread |
| `TreeFormat.KeyFieldsExactly` | arq/types/blob_key.go:81-105 | whatever the input, a key has the stretched flag exactly in trees from 14 and commits from 4, IsCompressed in commits from 8 if asked for, the archive fields in trees from 17 |
| `TreeFormat.CollapseExactly` | arq/types/tree.go:123-125 | a key is dropped exactly if its SHA1 is null |
| `TreeFormat.BlobKeyRoundTrip` | arq/types/blob_key.go:70-107 | reading an encoded key returns it for every blob type, version and compression gate |
| `CommitFormat.ReadCommit` | arq/types/commit.go:85-192 | for every input: the value, error or panic of the function its round trip is proved about, the same suffix left unread, and with an error the path and tree SHA1 that the returned commit holds |
| `CommitFormat.ShownSurvivesTail` | arq/types/commit.go:118-192 | whatever follows the Location, cut off or broken, the commit returned holds its path and tree SHA1 |
| `CommitFormat.ShownWithoutLocation` | arq/types/commit.go:112-134 | of a commit that ends behind its tree key, or whose Location does not decode, the tree is shown but no path |
| `CommitFormat.ShownWithoutKey` | arq/types/commit.go:88-111 | nothing is shown of one that is broken before that |
| `CommitFormat.CommitRoundTrip` | arq/types/commit.go:85-192 | at every version reading an encoded commit returns it with its decoded Location and leaves the suffix; it fails exactly on a Location that does not decode and panics on a null one |
| `CommitFormat.CommitHeadRoundTrip` | arq/types/commit.go:88-116 | header, author, comment, parents without and tree key with IsCompressed |
| `CommitFormat.CommitTailRoundTrip` | arq/types/commit.go:138-190 | the fields gated at versions 3, 4, 5, 8 and 9 |
| `CommitFormat.ReadParents` | arq/types/commit.go:100-111 | the counted loop over parents, in at most (remaining bytes + 1) calls |
| `CommitFormat.ReadFailedFiles` | arq/types/commit.go:155-169 | the counted loop over failed files, in at most (remaining bytes + 1) calls |
| `Wire.ReadHeader` | arq/types/header.go:63-88 | for every input: the value, error or panic of the function its round trip is proved about, and the same suffix left unread |
| `Wire.HeaderRoundTrip` | arq/types/header.go:63-88 | reading a header of any kind and three-digit version returns it |
| `Wire.HeaderBytes` | arq/types/header.go:69-84 | the name of the kind and three digits, in bytes |
| `Wire.NamesAreAscii` | arq/types/header.go:70-79 | the three names in bytes |
| `Wire.HeaderTagsExactly` | arq/types/header.go:68-83 | any other beginning is an error |
| `Wire.AtoiExactly` | arq/types/header.go:84 | a version is an optional sign and digits |
| `Wire.AtoiFails` | arq/types/header.go:84-87 | anything else is an error |
| `Wire.StringBytes` | arq/types/string.go:55-70 | only the flag 1 is followed by a value |
| `Wire.DataBytes` | arq/types/string.go:62-68 | data behind an eight-byte length, in bytes |
| `Wire.CutDataBytes` | arq/types/string.go:68 | data that is cut off comes back short |
| `Wire.BadLengthBytes` | arq/types/string.go:62-68 | a length that is cut off is an error, one of 2^63 or more panics |
| `Wire.BooleanBytes` | arq/types/boolean.go:44-54 | the byte 1 is true and every other false |
| `Wire.DateBytes` | arq/types/date.go:42-61 | milliseconds since the epoch behind the flag 1, kept as nanoseconds |
| `Wire.HexDigitsExactly` | arq/types/string.go:86 | hex digits of both letter cases, and nothing else |
| `Wire.HexDecodeExactly` | arq/types/string.go:86 | decoding succeeds exactly on an even number of hex digits |
| `Wire.BadShaBytes` | arq/types/string.go:86-91 | a SHA1 that is no hex string is an error |
| `Wire.ShaOfAnyLength` | arq/types/string.go:93 | one of another length is filled with zeros or cut |
| `Wire.ReadString` | arq/types/string.go:54-71 | nullable, length-prefixed; a length beyond int64 panics, a truncated string is returned short |
| `Wire.StringRoundTrip` | arq/types/string.go:54-71 | reading an encoded string returns it and leaves what follows |
| `Wire.ReadStringAsSHA1` | arq/types/string.go:73-95 | the hex string is decoded and copied into a zeroed 20-byte array |
| `Wire.ShaRoundTrip` | arq/types/string.go:73-95 | reading an encoded SHA1, or a null one, returns it |
| `Wire.HexRoundTrip` | arq/types/string.go:86 | decoding undoes hex encoding |
| `Wire.ReadDate` | arq/types/date.go:42-62 | for every input: the value, error or panic of the function its round trip is proved about, and the same suffix left unread |
| `Wire.DateRoundTrip` | arq/types/date.go:42-62 | every date of whole milliseconds in int64 nanoseconds, before 1970 too, survives the wrapping multiplication |
| `Wire.DataRoundTrip` | arq/types/data.go:41-53 | reading length-prefixed data returns it |
| `Wire.ManyRoundTrip` | arq/types/node.go:113-119 | a counted loop inverts the concatenation of its items, and panics if an item does |
| `Wire.ManyConsumes` | arq/types/node.go:113-119 | a declared count above the remaining bytes ends in an error |
| `Crypto.CryptoState.Decrypt` | crypto/crypto.go:61-93 | the result, and what the in-place decryption leaves in the caller's slice |
| `Crypto.CryptoState.CryptBlocks` | crypto/crypto.go:72 | decrypting in place from the last block equals CBC decryption of the original |
| `Crypto.XorIsBitwise` | crypto/crypto.go:63-72 | the exclusive or of the chaining sets every bit exactly where one of the two is set |
| `Crypto.OverwrittenIsPadded` | crypto/crypto.go:62-72 | the caller's slice keeps the prefix and then holds the padded message; unaligned data is left alone |
| `Crypto.EncryptedBytes` | crypto/crypto.go:62 | the prefix in bytes |
| `Crypto.DecryptExact` | crypto/crypto.go:61-93 | accepts exactly the CBC encryptions of padded messages, and returns the one message |
| `Crypto.DecryptSealed` | crypto/crypto.go:61-93 | prefixed ciphertexts always decrypt; bare ones exactly unless they begin with the prefix |
| `Crypto.DecryptEncrypt` | crypto/crypto.go:72 | CBC decryption undoes CBC encryption |
| `Crypto.EncryptDecrypt` | crypto/crypto.go:72 | CBC encryption undoes CBC decryption |
| `Crypto.UnpadExact` | crypto/crypto.go:77-91 | unpadding succeeds with x exactly on pad(x) |
| `Crypto.BytesToKey` | crypto/crypto.go:95-119 | despite its reused buffers the loop yields the stream of iterated hashes, cut to key and IV size, for any positive hash size |
| `Crypto.FirstBlocks` | crypto/crypto.go:102-115 | the first blocks written out: the hash of data and salt, repeated at least once, then the same behind the block before |
| `Crypto.DerivedExtends` | crypto/crypto.go:100-118 | asking for more bytes only extends the stream |

## Left out

- Listing and pagination of remote objects, authentication, SSH and HTTP clients, retries inside libraries.
- `NewCryptoState`: PBKDF2 and the choice of key sizes around `bytesToKey`.
- Property lists, the regular expression and the URL unescaping of a Location: one abstract step.
- File modes, ownership, `Chmod`, Windows path conversion, symbolic links in destination paths, logging and command-line flags.
- Blobs outside packs (`GetDataBlobKeyContentsFromObjects`): the reader takes packs and objects together as one map from SHA1 to bytes.
- CommitFormat.ReadCommit: of a commit returned with an error only the path and the tree SHA1 are modelled; the other fields set so far are only printed.
- PathResolution.FindNodeExactly: a commit path that is not clean and absolute, as the empty one of a commit cut off before its Location, for which only the contract of `FindNode` holds; and trees with a node named "..", which no file system has, for targets that do not spell out their names.
- TreeRestore.Recover: for a source path that resolves to the commit's root without naming it, such as /a/bx/.., only that the command ends, stays inside the destination, succeeds only if every node of the root was found and fails only if some was not; the contents of what is restored on the way are left open.
- Back-pointers from blob keys to their header, which only printing uses.
- PackSetCaching.ReturnedMeansValid: a download replaces the file in one step after creating it empty, and a check reads the file in one step; with two listed objects of the same key finer interleavings of their writes are not modelled.
- Errors of `os.Remove` other than a missing file, failing disks, unreadable index files, and a working directory that cannot be determined.
- The limit on consecutive empty reads inside `bufio`, and reads into an empty buffer.
- Memory exhaustion from a huge declared node count before the first node is read.
- `.index` files in the cache that the remote no longer lists.
- A panic while reading a blob from a pack, which needs a framed length of 2^63 or more in a pack with a valid checksum.
- `listDirectoryContents`, `TreeNode` and the bucket file, which take no part in a restore.
