# A model of reprepro's archive logic

reprepro keeps Debian package archives. This project models the algorithms under its archive logic, each one
in the form its source has: search trees, linked lists and buffers are changed in place by methods, whose results
are functions of the inputs or of the old state, and the lemmas say what these functions promise.

- **Contents index** (`filelist.c`): paths are compressed into a byte code (`PathCode`, `PathEncoder`,
  `Compressor`, `ListRecord`), the records are read into an AVL tree of directories that hold AVL trees of files
  (`AvlTree`, `StackBound`, `Searches`, `FileIndex`), and these are written out in order (`IndexWriter`,
  `PathTexts`). `StoredPaths` says by the characters of a path whether it is stored and as which bytes. `Contents`
  puts the whole way together.
- **Patterns** (`globmatch.c`): `GlobMatch`, the automaton on an array of positions, and `GlobPieces`, what the
  patterns mean.
- **Debian versions** (`dpkgversions.c`): `Versions` and, by characters, `VersionLaws`; section 5.6.12 of the Debian
  Policy Manual.
- **Flooding architecture-all packages** (`archallflood.c`): the tree of sources (`SourceTree`), the choice among
  offers (`FloodChoice`), the sorted list with its cursor (`FloodList`), and a target from reading it to the last
  pull (`FloodTarget`).
- **Checksum records** (`checksums.c`): `Checksums`, `ChecksumsCombine`, `ChecksumsList`, and the exact grammars of
  what is accepted, `RecordTexts` and `ListLines`.
- **Control files**: cutting a stream into chunks (`indexfile.c`: `IndexFile`, `StreamTexts`), taking a chunk out of a
  buffer, and reading and editing its fields (`chunks.c`: `ChunkExtract`, `Chunks`, `ChunkEdit`, `ChunkTexts`).
- **MD5** (`md5.c`): `Md5Stream`, sections 3.1 to 3.5 of RFC 1321 around an arbitrary block transformation.
- **Downloads** (`aptmethod.c`): the queue as a step system (`DownloadQueue`), in which order it sends (`SendOrder`),
  the linked list that refines it (`AptMethod`), and the framing of the answers (`Framing`).
- **Filter lists** (`filterlist.c`): `FilterList`.

`Strings`, `CText`, `Options` and `Sequences` hold what several of these share.

A method is proved against a function of its inputs or of its old state. What that function gives is then said once
more without it, in plain characters and numbers: `StoredPaths`, `GlobPieces`, `VersionLaws`, `RecordTexts`,
`ListLines`, `StreamTexts`, `ChunkTexts` and `SendOrder` hold these laws, and the other modules theirs.

## Findings

Some properties that one would expect do not hold of the code. Each has a counterexample and an exact condition.

- A path with two slashes in a row damages the record if the directory before them is still open from the path
  before (`a/x`, then `a//y`): `PathEncoder.DoubledSlashDamages`. So does a path that ends in a slash, if it is
  otherwise storable. A record reads back exactly if no add emits an empty name (`PathEncoder.RoundTrip`), and an add
  emits one exactly under a condition on the open directories and the path: `PathEncoder.EmptyNameIs`.
- For a package that is not in the target, the first offer is noted as one without sibling even if it has one, so
  that version 1 can lose to version 0 (`FloodChoice.NewerOverlooked`). The choice is the wanted one exactly if the
  first offer was not overlooked: `FloodChoice.UnknownIdeal`.
- A reply about the last download of a queue of several loses the ones before it if a request follows
  (`DownloadQueue.TailReplyLoses`). Nothing is lost exactly if the event is safe: `DownloadQueue.KeepsIfSafe`.
- Parsing a record copies each hash with a space after it, also the last one, so a text that ends with a hash, as
  `:1:abc` does, is refused only after one character too many for the room that was allocated. This happens exactly
  for texts that are nothing but hashes, with single spaces between them and none at the end:
  `Checksums.OverrunIs`.
- Combining two records neither of which has an md5sum gives one with an md5sum of one character, which then
  conflicts with every real md5sum (`ChecksumsCombine.DashIsNoMd5`). The combination knows just what its operands
  knew exactly if one of them has an md5sum: `ChecksumsCombine.CombinedStands`.
- `chunk_normalize` is idempotent exactly on chunks that do not begin with a blank or a newline:
  `ChunkEdit.NormalizeTwice`.
- After an edit, space at the end of an unterminated last line is no longer part of the value that is read:
  `ChunkEdit.ReadReplaced`, `Chunks.GetTerminated`. A replaced field reads back what was written exactly if that is
  one line without space around it: `ChunkEdit.ReadReplacedField`.

## Model

| member | source | states |
|---|---|---|
| `Strings.BeforeIs` | filelist.c:131-147 | one string comes before another exactly if it is a proper beginning of it or has the smaller byte at the first difference |
| `Searches.FileOrderIsCompare` | filelist.c:131-147 | the comparison of a name of known length with a terminated one, by strncmp and the terminator, is the order of strings |
| `Searches.DirOrderIsCompare` | filelist.c:251-272 | the comparison of two names by memcmp of the shorter length and then by length is the same order |
| `AvlTree.Tree.Descend` | filelist.c:125-148 | the search ends at the node of the key, or at the one empty link where it belongs; the stack of links is at most one longer than the height |
| `AvlTree.Tree.Rebalance` | filelist.c:162-236 | going back up the stack, with all four rotations, gives a linked, balanced tree with the same entries in the same order |
| `AvlTree.Tree.Add` | filelist.c:149-236 | a key that the search did not find: the tree is valid and balanced again and its contents are the old ones and exactly this entry |
| `AvlTree.Tree.Change` | filelist.c:133-140 | a node that was moved by realloc: the same tree with one value changed |
| `StackBound.AvlSize` | filelist.c:163-236 | a balanced tree of height h has at least Fib(h + 2) - 1 nodes |
| `StackBound.StackSuffices` | filelist.c:125-148 | with fewer than 2^64 nodes, which have different addresses, 128 links are enough for every search |
| `FileIndex.SearchFile` | filelist.c:123-148 | the search for a file of this name, by the order of strncmp and the terminator, and its stack, which has at most 128 links |
| `FileIndex.FindFile` | filelist.c:123-238 | for every name the package is appended to the packages of that file, and nothing else changes |
| `FileIndex.SearchDir` | filelist.c:242-274 | the search for a subdirectory, by the order of memcmp and the lengths, and its stack, which has at most 128 links |
| `FileIndex.FindDir` | filelist.c:242-364 | the subdirectory of that name, or a new empty one with this parent; nothing else changes |
| `FileIndex.FileList.AddFiles` | filelist.c:366-430 | every location that a record names gets the package once for each time it is named, up to the end or the first damage; the result says whether there was damage |
| `PathCode.ParseWritten` | filelist.c:366-430 | the bytes of operations are read back as these operations exactly if none of their names is empty |
| `PathEncoder.EmitMeaning` | filelist.c:603-668 | the operations of one add, run from the open directories, name the file that the path means, or none if the add is refused |
| `PathEncoder.EmitRefused` | filelist.c:637-660 | without two slashes in a row where the open directories are left, an add is refused exactly if a name is too long or there are too many directories |
| `PathEncoder.RoundTrip` | filelist.c:603-668 | a record reads back undamaged exactly if no empty name was written, and then names the accepted paths in order |
| `PathEncoder.EmptyNameIs` | filelist.c:603-668 | an add emits an empty name exactly if the path has two slashes in a row where it leaves the open directories, which are not yet as deep as can be, or if it has no such slashes, ends in a slash and is storable |
| `PathEncoder.NormalisedRoundTrip` | filelist.c:603-668 | for normalised paths the round trip always holds, and what is kept depends on the paths alone |
| `PathEncoder.DoubledSlashDamages` | filelist.c:615-660 | a/x and a//y together damage the record |
| `StoredPaths.NameStored` | filelist.c:637-668 | a name without slashes is stored exactly if it has at most 254 bytes |
| `StoredPaths.StorableFits` | filelist.c:603-668 | a normalised path is stored exactly if it has at most 253 slashes and no 255 bytes in a row without one |
| `StoredPaths.StripIs` | filelist.c:607-613 | t, /t and ./t mean the same path |
| `StoredPaths.EmitBytes` | filelist.c:614-668 | what an add writes for a path that is stored: one byte 2 + n to leave n directories, if any, a byte 2, the length and the name for each directory, and a byte 1, the length and the name for the file |
| `StoredPaths.FollowMost` | filelist.c:614-629 | the path stays in every open directory that it begins with, so that none is left without need |
| `StoredPaths.LongLength` | filelist.c:379-390 | a length is read as 255 for each byte 255 and what the next byte says |
| `StoredPaths.ReasonIs` | filelist.c:586-601 | a list is given up only if its paths, twice the length of each and 3 more, come within 2304 of 2^30 |
| `Compressor.FileListCompressor.Add` | filelist.c:603-668 | the buffer is the bytes of the old operations and of those emitted for the path; the directory stack and its offsets are where a reader of the buffer would be, also after an add that stops midway; a list is given up only if its bytes come within 2304 of the limit |
| `Compressor.FileListCompressor.Finish` | filelist.c:670-683 | the record is all that was emitted, with a terminator |
| `ListRecord.Compress` | filelist.c:577-683 | the buffer after the adds of any list of paths reads back undamaged exactly if no name in it is empty, and names the paths whose add returned RET_OK, in order; it is given up only if the record comes within 2304 bytes of the limit |
| `ListRecord.EmitAllMore` | filelist.c:603-668 | the record of a list of paths grows by what one more path emits where the compressor stands |
| `IndexWriter.DirCovers` | filelist.c:500-554 | the walk from a directory writes a location exactly if it is below that directory and has packages |
| `IndexWriter.DirInOrder` | filelist.c:500-554 | and it writes them in order: in each directory first its files by name, then its subdirectories by name |
| `IndexWriter.PrecedesIs` | filelist.c:500-554 | that order: a file comes before another of its directory by name, before all that is in subdirectories, and what is below one subdirectory before what is below another by the names of these |
| `IndexWriter.WriteIndex` | filelist.c:493-575 | the lines are those of all locations that have packages, each once, in order, with their packages |
| `IndexWriter.CompleteOnce` | filelist.c:493-575 | there is only one such output for the contents of an index, whatever the shapes of its trees |
| `PathTexts.PathTextMeaning` | filelist.c:493-575 | a normalised path is printed as it was given, but for the leading dot and slashes |
| `PathTexts.PathTextInjective` | filelist.c:493-575 | locations whose names have no slashes are printed differently if they are different |
| `Contents.WriteContents` | filelist.c:366-683 | from lists of normalised paths through records and index: each path whose names have at most 254 bytes, in at most 253 directories, is in exactly one line, with the packages that list it in the order given, and the lines are in order; others are in none; it gives up only for a list whose paths, twice the length of each and 3 more, come within 2304 of 2^30 |
| `Contents.PackagesAre` | filelist.c:366-430 | a line names each package as often as it lists the path, after the packages before it and before those after it |
| `GlobMatch.GlobMatch` | globmatch.c:41-171 | the answer is true exactly if the pattern has fewer than 2^31 characters and matches the string by the recursive definition |
| `GlobMatch.Advance` | globmatch.c:59-167 | one character: the marked positions are viable for the rest exactly if they were for the character and the rest; the window bounds every mark; giving up early is right |
| `GlobMatch.Visit` | globmatch.c:78-146 | what one marked position makes of a character: a star, a bracket expression, a question mark or a literal |
| `GlobMatch.ReadBracket` | globmatch.c:91-122 | the end of a bracket expression and whether it matches, with negation, ranges and a leading bracket |
| `GlobMatch.DoomedMatchesNothing` | globmatch.c:99-118 | a position from which an unclosed bracket expression must be passed matches no string, so that the early answer is right |
| `GlobMatch.StarMatches` | globmatch.c:35-36 | a star stands for any string |
| `GlobMatch.LiveAtEnd` | globmatch.c:168-170 | at the end of the string only the end of the pattern counts |
| `GlobPieces.MatchIsMeaning` | globmatch.c:35-171 | a string matches a pattern made of stars, question marks, sets with ranges and negation, and plain characters exactly if it can be cut into parts that these stand for, in order |
| `GlobPieces.EveryPattern` | globmatch.c:35-171 | every pattern is made of such pieces, or has a bracket that is never closed, and then matches nothing |
| `Versions.OrderInjective` | dpkgversions.c:89-93 | different characters weigh differently; a tilde less than the end, letters less than other characters |
| `Versions.VerRevCmp` | dpkgversions.c:95-119 | the sign of the result is that of comparing keys, alternating texts of weights and numbers, and neither string is read past its terminator |
| `Versions.CompareNumbers` | dpkgversions.c:107-116 | comparing digit by digit is comparing the numbers, of any length |
| `Versions.KeyOrderTransitive` | dpkgversions.c:95-119 | keys are ordered transitively, and what is equal at the ends is equal between |
| `Versions.VersionOrderIsOrder` | dpkgversions.c:121-130 | comparing versions is reflexive, antisymmetric in sign and transitive |
| `VersionLaws.VersionIsThreefold` | dpkgversions.c:121-130 | the epochs decide, with equal epochs the upstream versions, and only with these equal the revisions |
| `VersionLaws.CommonStart` | dpkgversions.c:95-119 | the same character other than a digit in front of two texts makes no difference |
| `VersionLaws.FirstDifference` | dpkgversions.c:89-105 | the first characters decide if they differ and one is no digit and not the end: a tilde comes first, then the end and digits, then letters, then others by code |
| `VersionLaws.NumbersFirst` | dpkgversions.c:106-118 | where both stand at a digit or the end, the numbers decide by value, and with equal ones what follows |
| `VersionLaws.ParseWritten` | dpkgversions.c:49-83 | a version between blanks, with or without epoch and revision, is read as its parts, with the last hyphen before the revision and an epoch of at most 2^64 - 1 |
| `VersionLaws.EmbeddedBlanks` | dpkgversions.c:57-64 | anything after blanks after the version is an error |
| `Versions.ParseVersion` | dpkgversions.c:49-83 | epoch, version and revision as the specification cuts them, with the same errors |
| `Versions.ParseRendered` | dpkgversions.c:49-83 | an epoch, a version and a revision that are written out between any blanks are read back |
| `Versions.Compare` | dpkgversions.c:134-150 | fails exactly if one of the two does not parse, and else has the sign of the order |
| `VersionLaws.WrittenOrder` | dpkgversions.c:49-130 | so for any two versions as they are written, both parse and compare by epoch, then upstream version, then revision |
| `SourceTree.Sources.FindOrAddName` | archallflood.c:143-181 | the tree with parent links stays ordered and linked, and has exactly this node more if it was not there |
| `SourceTree.Sources.FindOrAdd` | archallflood.c:183-220 | the one version of this source, in its sorted list; all others stay |
| `SourceTree.Sources.Find` | archallflood.c:222-246 | finds a version exactly if there is one |
| `SourceTree.Sources.VersionsUnique` | archallflood.c:143-246 | no two entries have the same source and version |
| `SourceTree.Destroy` | archallflood.c:111-138 | the loop ends and frees every node and every version exactly once, and nothing else |
| `FloodList.List.Search` | archallflood.c:364-427 | from the remembered cursor the search, which ends although it may start over, finds the package or the gap where it belongs |
| `FloodList.Decide` | archallflood.c:475-543 | the comparisons in their order replace the offer exactly when the selection step does; it fails only if one of the versions does not parse |
| `FloodList.List.TryPackage` | archallflood.c:353-545 | the list stays strictly sorted, the cursor lies in it, and the states of the packages change by one step of the selection, or not at all if a comparison fails |
| `FloodList.List.Pull` | archallflood.c:547-579 | for any packages: a pull is the fold of these steps, up to the package whose comparison fails if there is one, which needs a version that does not parse |
| `FloodChoice.ChoiceIsBest` | archallflood.c:461-543 | for a package in the target: the newest offer above the old version that has a sibling, else the newest above it if the old source has no sibling, else none |
| `FloodChoice.OrderIrrelevant` | archallflood.c:461-543 | the order of the offers makes no difference, up to versions that compare equal |
| `FloodChoice.FloodEach` | archallflood.c:353-545 | each package is decided by the offers for it alone |
| `FloodChoice.FloodChoosesBest` | archallflood.c:353-545 | so whatever is fed, in whatever order, each package of the target ends with the best offer for it |
| `FloodChoice.UnknownChoice` | archallflood.c:430-460 | what is chosen for a package that is not in the target |
| `FloodChoice.UnknownIdeal` | archallflood.c:430-460 | it is the wanted choice exactly if the first offer was not overlooked |
| `FloodChoice.NewerOverlooked` | archallflood.c:430-460 | for example version 1 loses to version 0 |
| `FloodTarget.SavePackageVersion` | archallflood.c:250-315 | a package of another architecture sets the flag of its source, one of architecture all goes behind the last, unless it is out of order; the flags and the list are those of all packages read so far |
| `FloodTarget.Initialize` | archallflood.c:317-350 | gives up exactly if the packages are out of order; otherwise the list has a state for each package of architecture all, with the flags of the whole target, whether its versions parse or not |
| `FloodTarget.FloodAllConcat` | archallflood.c:547-579 | pulling twice is pulling once from both lists joined |
| `FloodTarget.Flood` | archallflood.c:317-579 | reading a target and pulling from any number of architectures is the fold over all of their packages, from the states that the target alone determines, unless a comparison fails, which needs a version that does not parse |
| `FloodTarget.FloodedTarget` | archallflood.c:317-579 | in the end each package of the target has the best of all offers, with siblings as the target says |
| `FloodTarget.OffersAre` | archallflood.c:353-579 | the offers for a name are exactly those of the packages of this name that are pulled, each with a sibling exactly if the target has a package of the same source and source version that is not of architecture all |
| `Checksums.Parse` | checksums.c:268-371 | accepts what the specification accepts, stores its text with the places of all known parts, and fills the buffer as far as `Filled` says, also for a text that is refused |
| `Checksums.ParsedCanonical` | checksums.c:268-371 | what is accepted becomes canonical |
| `Checksums.CanonicalParsed` | checksums.c:268-371 | a canonical record is parsed as itself |
| `Checksums.ParseTwice` | checksums.c:268-371 | so parsing is a projection |
| `Checksums.AcceptedFits` | checksums.c:274-371 | the stored text of what is accepted is no longer than the text that was read |
| `Checksums.OverrunIs` | checksums.c:268-371 | the room that is allocated is exceeded exactly for texts of nothing but hashes with single spaces between them and none at the end, and then by one character |
| `Checksums.Initialize` | checksums.c:196-257 | from computed hashes: the record with exactly those, a dash for a missing md5sum, and the places of all parts; it fills exactly the room computed before |
| `Checksums.InitializedParsed` | checksums.c:196-257 | its text is canonical and parses as the same record |
| `RecordTexts.SpelledRead` | checksums.c:268-371 | hashes written as a colon, a kind, a colon, a value and spaces, then an md5sum or a dash, spaces and a size, whatever its zeros, are read as these, with the md5sum in lower case |
| `RecordTexts.AcceptedSpelled` | checksums.c:268-371 | and every text that is accepted is written like that |
| `RecordTexts.KindsAre` | checksums.c:268-371 | kind 1 is sha1, kind 2 is sha256, and a dash is no md5sum |
| `ChecksumsCombine.MergeIsUnion` | checksums.c:496-596 | of sorted records: the sorted union of the kinds, known and unknown, with the first value where both have one |
| `ChecksumsCombine.StoredValues` | checksums.c:268-371 | the cached places give back the values of the record |
| `ChecksumsCombine.Check` | checksums.c:455-479 | succeeds exactly if no kind that both know differs; improves exactly if the second knows more |
| `ChecksumsCombine.CombineTexts` | checksums.c:496-596 | the in-place merge of two texts stores the combined record with its places, and says which hashes came from the second |
| `ChecksumsCombine.CombineKnown` | checksums.c:496-596 | what is known afterwards is what the first knows, and else what the second knows |
| `ChecksumsCombine.CombinedStands` | checksums.c:455-596 | a check of the combination against either operand succeeds without improvement; it knows just what they knew exactly if one of them has an md5sum |
| `ChecksumsCombine.DashIsNoMd5` | checksums.c:571-579 | two records without md5sum, combined, conflict with a third one that each of them agrees with |
| `ChecksumsList.HashlineParse` | checksums.c:611-651 | accepts what the specification accepts |
| `ChecksumsList.ListLength` | checksums.c:797-838 | the length that is computed is that of the list |
| `ChecksumsList.GenFileList` | checksums.c:797-873 | no list exactly if a hash is missing that must not be, and else the buffer is filled exactly with the lines and a terminator |
| `ChecksumsList.ListLineReadBack` | checksums.c:611-873 | each line of a list is read back as the same hash, size and name |
| `ChecksumsList.DashLineRefused` | checksums.c:611-651 | a line with a dash for the hash is refused |
| `ListLines.SpelledRead` | checksums.c:611-651 | a hash in lower case, a size and a name with any blanks before and between them and any zeros before the size are read as these |
| `ListLines.AcceptedSpelled` | checksums.c:611-651 | and every line that is accepted is written like that |
| `ListLines.ListIs` | checksums.c:797-873 | a list is, for each entry in order, a newline, a space, the hash or a dash, a space, the size, a space and the name |
| `IndexFile.IndexFile.Get` | indexfile.c:94-186 | the next chunk of the pure split of what is pending; the write position never passes the read position; the line count goes on; it fails for good only if a text does not fit the margin, and otherwise only if a read fails |
| `IndexFile.GetAll` | indexfile.c:94-186 | for any fragmentation of the reads: if no read fails and every text fits the margin, exactly the chunks of the stream; else a prefix of them, and an error only for one of these reasons |
| `IndexFile.TakenMore` | indexfile.c:115-143 | one character: a carriage return is dropped, a NUL becomes a space |
| `IndexFile.ChunksJoined` | indexfile.c:94-186 | chunks that are joined by blank lines are cut into the same chunks |
| `StreamTexts.ChunksAre` | indexfile.c:94-186 | lines with carriage returns at their ends, a blank line after each chunk and empty lines before it: the chunks are these lines, with zero bytes made spaces, and then those of the rest |
| `StreamTexts.LastChunk` | indexfile.c:173-186 | the last chunk needs no blank line after it, and empty lines at the end are no chunk |
| `StreamTexts.LastLine` | indexfile.c:173-186 | nor does its last line need a newline |
| `Md5Stream.Context.Update` | md5.c:76-109 | the context stands for the message so far and the new bytes, whatever pieces they come in |
| `Md5Stream.Context.Final` | md5.c:116-146 | the digest is the fold over exactly the padded message with its bit length modulo 2^64 |
| `Md5Stream.DigestAt` | md5.c:143-144 | byte k of the digest is byte k % 4, the least significant first, of word k / 4 of the folded state |
| `Md5Stream.InitialBytes` | md5.c:61-72 | the fold begins with the words of the bytes 01 23 45 67 89 ab cd ef fe dc ba 98 76 54 32 10 |
| `Md5Stream.PaddedBytes` | md5.c:116-140 | the padded message: the message, 0x80, fewer than 64 zeros, and 8 times its length modulo 2^64 in eight bytes, the least significant first; whole blocks in all |
| `Md5Stream.WordsAt` | md5.c:76-109 | word i of a block is the number of its bytes from 4 * i on, the least significant first |
| `Md5Stream.PaddedBlocks` | md5.c:116-140 | what is processed at the end, in one block or two, is the end of the padded message |
| `Md5Stream.LengthWords` | md5.c:137-139 | the two words of bytes, shifted, are the number of bits modulo 2^64 |
| `Md5Stream.DigestOf` | md5.c:60-146 | the digest does not depend on how the message is cut |
| `DownloadQueue.KeepsIfSafe` | aptmethod.c:395-627 | an event loses nothing and keeps the pointers right exactly if it is safe |
| `DownloadQueue.TailReplyLoses` | aptmethod.c:454-627 | a failure of the second of two downloads, reported first, loses the first |
| `DownloadQueue.InOrderRunIsSafe` | aptmethod.c:395-627 | replies in the order of the requests are safe over a whole run |
| `DownloadQueue.NothingLost` | aptmethod.c:395-627 | over every safe run, what was started has ended or is in the queue, just as often |
| `DownloadQueue.OneOutcome` | aptmethod.c:395-627 | from the empty queue each download ends exactly as often as it was started, or is still in the queue |
| `DownloadQueue.BudgetRun` | aptmethod.c:454-583 | over a safe run the requeues of a download and what is left of its budget are at most what it began with |
| `DownloadQueue.FewRequeues` | aptmethod.c:454-583 | a download is requeued at most 21 times |
| `DownloadQueue.MostRequeues` | aptmethod.c:454-583 | and there is a safe run in which a download that is started once is requeued 21 times |
| `SendOrder.SendsHead` | aptmethod.c:1004-1030 | a send step takes exactly the first of the unsent items from them and changes nothing else |
| `SendOrder.SentInOrder` | aptmethod.c:395-1030 | over every safe run with replies about sent items: what was sent and then what is unsent is what was unsent at the beginning and then all that was enqueued, in order |
| `SendOrder.EachSent` | aptmethod.c:395-1030 | over every safe run: each request and each requeue is sent exactly once, or is still unsent, or was answered before it was sent |
| `SendOrder.TriedAgain` | aptmethod.c:454-583 | up to 10 redirects lead to their targets; a failure or another redirect to the fallback, as a last try with redirects of its own, and after that to the end of the download; the item goes behind all others |
| `AptMethod.Method.Enqueue` | aptmethod.c:395-405 | the list with its three pointers takes the step of the queue |
| `AptMethod.Method.SendNext` | aptmethod.c:1004-1030 | the next item to send moves on; the pointer marks the unsent rest |
| `AptMethod.Method.UriDone` | aptmethod.c:586-627 | the list takes the step of the queue for a finished download, whenever that leaves a list |
| `AptMethod.Method.UriError` | aptmethod.c:454-530 | the same for a failure, with its fallback |
| `AptMethod.Method.UriRedirect` | aptmethod.c:454-583 | the same for a redirect, of which there are at most 10 in a row |
| `Framing.CutMore` | aptmethod.c:956-990 | cutting what has come and then what is left with more is cutting it all |
| `Framing.EndIs` | aptmethod.c:956-990 | the first newline that follows another with only carriage returns between them ends a block, the first zero byte is an error, and nothing else is either |
| `Framing.BlocksCut` | aptmethod.c:956-990 | blocks that are written with blank lines between them are cut into the same blocks |
| `Framing.Receiver.Receive` | aptmethod.c:914-991 | for any pieces: exactly the blocks that are complete now, and failure exactly at a zero byte |
| `FilterList.FilterFile.Find` | filterlist.c:390-432 | wherever the cursor is, the answer is membership, and the cursor is then on the item found |
| `FilterList.FilterFile.AddLine` | filterlist.c:170-200 | a line goes to its place in the sorted list unless its package is there already |
| `FilterList.FilterFile.Parse` | filterlist.c:170-203 | the list of lines is accepted exactly if all packages are different, and then has just their rules |
| `FilterList.RulesAt` | filterlist.c:170-203 | the rule for a package is that of its line |
| `FilterList.FirstMatchIs` | filterlist.c:434-447 | the answer is that of the first file that has a rule for this package, for this version or for all, or else the default |
| `FilterList.FilterlistFind` | filterlist.c:434-447 | over any sequence of lookups the answer is that of a search without cursors for the first rule that applies |
| `Chunks.ChunkGetField` | chunks.c:29-47 | the place behind the colon of the first line with this name |
| `Chunks.ChunkGetValue` | chunks.c:92-121 | its value without blanks around it; space at the end stays if the line is not terminated |
| `Chunks.GetFlatten` | chunks.c:29-121 | reading from the text is reading from the list of its fields |
| `Chunks.FieldsFlatten` | chunks.c:485-515 | proper fields that are written one after the other are the fields of the text |
| `Chunks.GetTerminated` | chunks.c:92-121 | terminating the last line changes only space at the end of its value |
| `ChunkTexts.FoldIs` | chunks.c:29-47 | characters of names are alike exactly if they are equal or the two cases of one of the 26 letters |
| `ChunkTexts.FirstNamed` | chunks.c:29-121 | the value is that of the first line that begins with the name, in whatever case, and a colon, without the white space around it |
| `ChunkTexts.NoneNamed` | chunks.c:29-121 | without such a line there is none |
| `ChunkTexts.FieldsAre` | chunks.c:485-520 | a line that begins with a space or a tab belongs to the field before it, every other one begins a field, and an empty one ends the chunk |
| `ChunkEdit.ChunkReplaceFields` | chunks.c:455-566 | the output is that of the specification and never longer than the room computed before |
| `ChunkEdit.ReplacedFields` | chunks.c:455-566 | the fields of the result are exactly those kept, in order, with the new ones in their place; there is no result exactly if the place is missing and must not be |
| `ChunkEdit.ReadReplaced` | chunks.c:452-566 | every replaced field reads as its new value, every removed one is gone, every other one reads as before but for space at the end of an unterminated line |
| `ChunkEdit.ReadReplacedField` | chunks.c:647-656 | what was written is read back exactly if it is one line without space around it |
| `ChunkTexts.AddedInPlace` | chunks.c:455-566 | fields without any of the new names: the text of the result is the old one with one line for each new field, its name, a colon, a space and its value, in order, in front of the field that is named or at the end |
| `ChunkEdit.ChunkNormalize` | chunks.c:658-715 | the output is that of the specification, within the room computed before |
| `ChunkEdit.ReadNormalized` | chunks.c:658-715 | the first field reads as its new value and every other one as before, but for space at the end of an unterminated line |
| `ChunkEdit.NormalizeTwice` | chunks.c:658-715 | normalising twice is normalising once exactly if the chunk does not begin with a blank or an empty line |
| `ChunkTexts.PutFirst` | chunks.c:658-715 | the text is the line of the field and then all other fields as they were |
| `ChunkExtract.ChunkExtract` | chunks.c:717-797 | also in place: the first chunk, terminated, and where the next begins; what is still to be read is untouched, and no more is written than was read |
| `ChunkExtract.ExtractedWellFormed` | chunks.c:717-797 | a chunk has no empty line, carriage return or terminator, and does not begin with a blank |
| `ChunkExtract.ExtractTwice` | chunks.c:717-797 | taking a chunk out of itself gives it again and leaves nothing |
| `ChunkTexts.AllChunksAre` | chunks.c:717-797 | extracting until nothing comes out gives all chunks of a text, without carriage returns and whatever white space is between them |
| `ChunkTexts.CommentDropped` | chunks.c:717-733 | a comment line in front of a text makes no difference, where comments are allowed |

## Left out

- FileIndex.FileList.AddFiles: a name whose length runs past the end of a damaged record counts as damage before
  anything is added for it, where the code reads on past the buffer; and a record that names files with NUL in them,
  which no add writes, is excluded by the precondition.
- AvlTree.Tree.Add: the search before it is `Tree.Descend`; both together with the append to a file that is there
  are `FileIndex.FindFile`. A node that realloc may move is always modelled as moving.
- FileIndex.SearchFile: the array of 128 links is a sequence of links, with the bound proved.
- Contents.WriteContents: lines are a path and its packages; the tabs and commas between them are not modelled.
- IndexWriter.WriteIndex: the same; the tab, the commas and the line end are literal bytes around what is modelled.
- GlobMatch.GlobMatch: the size of the array, declared before the length is checked, is not modelled for patterns
  of INT_MAX characters and more.
- Versions.ParseVersion: character classes are those of ASCII, and strtoul has 64 bits.
- FloodList.List.Pull: which package a pull stops at, if versions do not parse, is not computed from the versions
  alone; the packages before it are all accounted for.
- FloodTarget.Initialize: reading the package database, getinstalldata and floodlist_install are foreign calls.
- SourceTree.Destroy: the strings of a node are freed with it; freeing the list of packages is left out.
- Checksums.Parse: the buffer is a growing sequence; how far it is filled is a result, which
  `Checksums.OverrunIs` compares with the room.
- ChecksumsCombine.CombineTexts: records come from checksums_parse; a kind that is a space is excluded for the second
  one, and the flags of improved hashes are two booleans.
- ChecksumsCombine.CombinedStands: records with neither md5sum nor dash are not covered.
- ChecksumsList.GenFileList: one kind of list at a time; checksumsarray_parse is left out.
- IndexFile.IndexFile.Get: the size of the buffer is a parameter; a partial chunk is lost after a read error, as in
  the code.
- Md5Stream.Context.Final: MD5Transform is an arbitrary function, and the order of bytes in memory is abstracted to
  words made of four bytes, the least significant first.
- AptMethod.Method.UriDone: excluded is a callback that requests more while the last pointer has been lost to an
  unsafe reply, as the list and its pointers then belong to two lists.
- AptMethod.Method.UriError: URIs are opaque, and the rewritten fallback is a parameter.
- Framing.Receiver.Receive: parsing the blocks, the pipe and its errors.
- FilterList.FilterFile.Parse: cutting lines into words, reading files, and filters given on the command line.
- ChunkEdit.ChunkReplaceFields: names without newlines, which all callers' names are: they are literals or words of a
  line; the failing assertion for a missing place is an outcome of its own.
- ChunkEdit.ChunkNormalize: a name without newlines, as its callers pass a literal.
- Chunks.ChunkGetValue: the other readers of chunks (lists of words, truth values, names) would be easy members.
- Allocation failure, interrupts, messages, and the Berkeley DB tables with their cursors and locks.
- Processes, pipes, hooks, decompression, copying and linking of files; configuration, signatures and uploads.
- The linked lists of `FloodList`, `FilterList`, `AptMethod` and `SourceTree` each have their own notion of a chain,
  as each is about the next field of another class.
