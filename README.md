# godi core, modelled in Dafny

godi seals directory trees. For each tree it writes an index file that
records every file's information plus a signature. In "sealed-copy" mode it
copies the files to destinations as it goes and removes the copies again if a
tree fails. A small web client watches the server's state object through a
push connection.

This project models the decision logic of that core. It covers:

- the web client's `GodiController`;
- argument sanitising;
- index naming and index writing;
- result handling and the finaliser with its rollback;
- the gob index codec;
- read-controller stream counting and the reader's write accounting.

It then proves properties of the model.

The modules are:

| module | file | models |
|---|---|---|
| `Wrappers` | wrappers.dfy | `Option` |
| `Text` | text.dfy | string helpers: joining, prefixes, `strings.Contains`, zero-padded decimals (`%04d`) |
| `Api` | api.dfy | `FileInfo`, `BasicResult`, priorities and errors, shared by the other modules |
| `SealTypes` | seal_types.dfy | the seal command, its mode, `SealResult` and the longest-first ordering |
| `SealCli` | seal_cli.dfy | `SanitizeArgs` as a pure `Sanitize` and an in-place method on `SealCommand` |
| `SealAgg` | seal_agg.dfy | `IndexPath` and its recognising pattern, `writeIndex`, `resultHandler`, the finaliser |
| `GobCodec` | gob_codec.dfy | the index layout as a stream of tokens, `Serialize`, `Deserialize` |
| `Reader` | reader.dfy | `ReadChannelController.Streams`, the nprocs guard, `ReadChannelDeviceMapStreams`, `WriteTo` |
| `Web` | web_controller.dfy | the `GodiController` as a pure `Step` over events and a class proved against it |

Where the source changes state, the model changes state too:

- The controller's scope is a class whose methods are proved equal to the pure `Step`.
- `SanitizeArgs` rewrites `SealCommand.trees` in place.
- `resultHandler` updates the aggregation's `treePaths` map.
- `Finalize` is a loop proved against a fold over the trees.
- `Deserialize` and `WriteTo` are loops proved against recursive specification functions.

Effects the core performs are inputs to the model:

- The file system: `os.Stat`, `os.OpenFile` and the serialiser's error are inputs. So is the result of the `os.Remove` that deletes a half-written index: the source ignores that error, and the model records whether the file went away.
- Whether an `os.Remove` of the rollback succeeds is an input that sees the paths removed so far, so a directory can refuse while it still holds a file and give way once the file is gone.
- The clock: `time.Now` is read each time an index is named, which is once per tree, so `Env.now` maps each tree to the reading taken for it.
- `path.Clean` is a function parameter.
- The signature function (`hashInfo`/sha1) is a parameter from file informations to bytes.
- Reads from devices are a sequence of read results, and a writer is a function of the call index and the buffer.

Every file-system effect the finaliser would perform comes back as a list of operations in order (`FsOp`).

Go maps are iterated in an order the runtime chooses, so that order is an input:

- `Finalize` takes it as an `order` sequence that enumerates the map's keys.
- `ReadChannelDeviceMapStreams` sums over the set of controllers, which has no order at all.

`sort.Sort` is not stable. The model sorts with an insertion sort, which is one of the orders it may produce. The lemmas about the rollback rely only on "longest path first" and on the result being a permutation.

Where the documentation and the code disagree, the model follows the code:

- The comment at codec/gob.go:21-25 lists a `numEntries` field. `Serialize` never writes it, so the model's layout is version, entries, end marker, signature.
- The controller's failure callback only sets `updateFailed`. It leaves `isUpdating` as it was (`Web.StartupFailureKeepsUpdating`).

## Model

| member | source | states |
|---|---|---|
| Web.Init | web/client/app/js/controllers.js:41-44 | right after the controller function runs: read-only, updating, not failed, no connection, empty state; DEFAULTS and GET are in flight |
| Web.AfterUpdateReadOnly | web/client/app/js/controllers.js:27-31 | the latch becomes false exactly when it was true and the header `x-is-rw` is "true"; nothing else changes |
| Web.AfterUpdateDone | web/client/app/js/controllers.js:34-40 | both status flags are cleared; the latch is consulted only when a header is supplied; nothing else changes |
| Web.AfterFirstState | web/client/app/js/controllers.js:51-72 | a connection to ws://host:port + socketURL is opened, CONNECTING, unless one exists and is OPEN, in which case it is kept; otherwise it behaves as updateDone |
| Web.Completed | web/client/app/js/controllers.js:51-80 | a success callback retires its request; the reply becomes $scope.default for the defaults GET and the watched state otherwise; only the startup GET opens a connection, and only when none is OPEN; every callback applies the latch rule; all but the push fetch clear both status flags, which the push fetch leaves as they were |
| Web.GodiController.constructor | web/client/app/js/controllers.js:16-48 | the object's scope equals `Init()` |
| Web.GodiController.UpdateReadOnly | web/client/app/js/controllers.js:27-31 | the in-place latch update equals `AfterUpdateReadOnly` and never sets the latch back to true |
| Web.GodiController.UpdateDone | web/client/app/js/controllers.js:34-40 | both flags are cleared in place, equal to `AfterUpdateDone` |
| Web.GodiController.UpdateFailed | web/client/app/js/controllers.js:46-48 | sets `updateFailed` and changes nothing else |
| Web.GodiController.FirstStateHandler | web/client/app/js/controllers.js:51-72 | the in-place handler equals `AfterFirstState` |
| Web.GodiController.DefaultsSucceeded | web/client/app/js/controllers.js:74 | the DEFAULTS completion copies the payload into `defaults` and runs updateDone with the header, as `Step` says |
| Web.GodiController.GetSucceeded | web/client/app/js/controllers.js:75 | the GET completion copies the payload into `state` and runs firstStateHandler, as `Step` says |
| Web.GodiController.PutSucceeded | web/client/app/js/controllers.js:78-80 | the `$update` completion stores the reply and runs updateDone, as `Step` says |
| Web.GodiController.RefetchSucceeded | web/client/app/js/controllers.js:59-65 | the push-triggered `$get` stores the reply and runs only updateReadOnly, as `Step` says |
| Web.GodiController.RequestFailed | web/client/app/js/controllers.js:74-80 | a DEFAULTS, GET or PUT failure runs updateFailed, as `Step` says |
| Web.GodiController.RefetchFailed | web/client/app/js/controllers.js:59-65 | the push fetch has no failure callback: only the request is retired |
| Web.GodiController.OnMessage | web/client/app/js/controllers.js:56-68 | a push message issues a re-fetch exactly when it parses, is truthy, and has `state === 0` |
| Web.GodiController.EditState | web/client/app/js/controllers.js:78-80 | a caller changes the fields of the watched state; nothing else changes |
| Web.GodiController.WatchListener | web/client/app/js/controllers.js:78-80 | the watch listener issues one PUT of the current state |
| Web.GodiController.SocketReadyStateChanged | web/client/app/js/controllers.js:54-55 | the connection's readyState, which firstStateHandler consults, changes; its address does not |
| Web.GodiController.Handle | web/client/app/js/controllers.js:16-84 | dispatching an event to its callback changes the scope exactly as `Step` does |
| Web.GodiController.HandleAll | web/client/app/js/controllers.js:16-84 | a whole sequence of callbacks changes the scope exactly as `Run` does |
| Web.RunAppend | web/client/app/js/controllers.js:16-84 | running two event sequences one after the other is running their concatenation |
| Web.ReadOnlyStep | web/client/app/js/controllers.js:27-31 | no event sets the latch back to true; it opens only through a delivered success whose header grants write access |
| Web.ReadOnlyRun | web/client/app/js/controllers.js:27-31 | over any sequence of events the latch changes only from true to false |
| Web.ReadOnlyLatch | web/client/app/js/controllers.js:27-31 | along any trace, once the state is writable it stays writable |
| Web.UpdatingRun | web/client/app/js/controllers.js:34-48 | no callback sets `isUpdating`; only the controller function does |
| Web.SuccessClearsStatus | web/client/app/js/controllers.js:34-40 | a completed DEFAULTS, GET or PUT clears both status flags |
| Web.RefetchSuccessOnlyReadOnly | web/client/app/js/controllers.js:59-65 | the push fetch's completion stores the state and updates the latch; the flags and the connection stay |
| Web.FailureFrame | web/client/app/js/controllers.js:46-48 | a failure sets `updateFailed` (not for the push fetch) and changes nothing else, not even `isUpdating` |
| Web.StartupFailureKeepsUpdating | web/client/app/js/controllers.js:41-48 | a failed startup GET leaves the controller updating and failed at once |
| Web.MessageFetch | web/client/app/js/controllers.js:56-68 | a push message issues one re-fetch iff it parses to an object whose `state` is the number 0, and nothing otherwise |
| Web.PutStep | web/client/app/js/controllers.js:77-80 | no event but the watch listener adds a PUT, and the listener's PUT carries the current state |
| Web.PutsFromObserved | web/client/app/js/controllers.js:77-80 | over any run, every PUT in flight at the end was in flight at the start or carries the state seen at one of the run's watch firings, and every watch firing leaves a PUT of the state it saw in flight |
| Web.PutCompletionKeepsSocket | web/client/app/js/controllers.js:78-80 | a PUT's completion, success or failure, never touches the connection |
| Web.GetOpensSocket | web/client/app/js/controllers.js:51-72 | the startup GET opens the connection at ws://host:port + the payload's socketURL |
| Web.FirstStateIdempotent | web/client/app/js/controllers.js:54-55 | firstStateHandler called again while the connection is OPEN keeps that connection |
| Web.GetCountStep | web/client/app/js/controllers.js:51-75 | no event issues a GET, and the event that opens a connection consumes the pending GET |
| Web.SingleSocketStep | web/client/app/js/controllers.js:51-75 | every event keeps "a GET is pending or a connection exists, at most once"; an existing connection keeps its address |
| Web.OpenCountBound | web/client/app/js/controllers.js:51-75 | a sequence of events opens no more connections than there are pending startup GETs |
| Web.AtMostOneConnection | web/client/app/js/controllers.js:41-75 | from startup, any order of events opens at most one push connection |
| Web.ConnectionKept | web/client/app/js/controllers.js:51-72 | once a connection exists it is never replaced, whatever happens next |
| Web.InitialLoad | web/client/app/js/controllers.js:41-75 | DEFAULTS then a write-granting GET: the state is the GET payload, the latch is open, no flags are set, one connection is being opened |
| Web.FailedWriteKeepsEdit | web/client/app/js/controllers.js:46-48 | a failed write is not rolled back: the local edit stays and `updateFailed` is set |
| SealTypes.ModeFor | seal/types.go:79-85 | the mode is "seal" iff there are no writers and "sealed-copy" otherwise |
| SealTypes.SealCommand.NewCommand | seal/types.go:79-88 | the new command has the mode for its writer count and keeps the given trees and reader and writer counts |
| SealTypes.SealResult.Info | seal/cli.go:14-19 | an error result reports the error text at Error priority; otherwise its own message and priority |
| SealTypes.SealResult.Error | seal/cli.go:21-23 | the error is present iff the result carries one, and then Info reports it |
| SealTypes.SealResult.FromGenerator | seal/types.go:73-76 | a result is from a generator iff its relative path is empty |
| SealTypes.LessIsStrictOrder | seal/types.go:44-46 | Len is the length; Less means a strictly longer path, which is irreflexive, asymmetric and transitive |
| SealTypes.Swap | seal/types.go:45 | exactly the two positions are exchanged, a permutation |
| SealTypes.SortedLengths | seal/types.go:41-46 | in a longest-first order an earlier path is never shorter than a later one |
| SealTypes.AdjacentSorted | seal/types.go:41-46 | if every adjacent pair is in order, the whole sequence is longest-first |
| SealCli.Cleaned | seal/cli.go:43-52 | every tree is replaced by its cleaned form, position by position |
| SealCli.Sanitize | seal/cli.go:38-83 | no trees is an error with no change; a stat failure, a non-directory or a reader count below 1 return the cleaned trees with an error, in that order; with valid arguments the filter panics iff several trees all get filtered out; success holds iff the arguments are valid and no panic occurs, and then the trees are the one cleaned tree or the filtered cleaned trees |
| SealCli.SanitizeArgs | seal/cli.go:38-83 | the in-place method returns the error and leaves the trees `Sanitize` computes; the command's other fields are unchanged |
| SealCli.StatAndClean | seal/cli.go:43-52 | the loop cleans every tree in place and collects exactly the unreadable trees and the non-directories |
| SealCli.FilterSubtrees | seal/cli.go:64-80 | the nested loops build exactly the filtered list `SubtreeFilter` describes |
| SealCli.UnreadableMembers | seal/cli.go:43-48 | a tree is reported unreadable iff it is given and its stat fails |
| SealCli.NotDirectoriesMembers | seal/cli.go:49-51 | a tree is reported as not a directory iff it is given and it stats as a non-directory |
| SealCli.AllDirectories | seal/cli.go:43-62 | when every tree is a directory, neither error list has entries |
| SealCli.RowOnlyLtree | seal/cli.go:65-74 | one pass of the inner loop only ever appends its outer tree |
| SealCli.FilterOnlyInputs | seal/cli.go:64-80 | the filter only ever keeps given trees |
| SealCli.RowsOnlyInputs | seal/cli.go:64-74 | the first n outer passes only ever keep given trees |
| SealCli.TwoTrees | seal/cli.go:64-80 | for two trees the filter keeps each tree that is not prefixed by the other |
| SealCli.PrefixPairKeepsShorter | seal/cli.go:64-80 | of two trees where one prefixes the other, only the shorter survives, in either order |
| SealCli.SingleTreeKept | seal/cli.go:38-83 | a single readable directory is accepted and kept, cleaned |
| SealCli.IdenticalTreesPanic | seal/cli.go:64-77 | the same tree given twice leaves no valid tree, which the source treats as a panic |
| SealCli.UnreadableFirst | seal/cli.go:54-57 | any unreadable tree gives the unreadable-trees error, whatever else is wrong |
| SealCli.NotDirectoriesSecond | seal/cli.go:58-62 | with all trees readable, any non-directory gives the not-a-directory error |
| SealCli.NestedTreeSurvives | seal/cli.go:64-80 | the filter as written keeps "/a/b" next to "/a" and duplicates "/a" and "/c" |
| SealCli.SiblingDropped | seal/cli.go:64-80 | the filter as written drops "/ab" next to "/a" |
| SealCli.WithinTransitive | seal/cli.go:64-80 | lying inside a tree, by path components, is transitive |
| SealCli.KeptFromMembers | seal/cli.go:64-80 | the corrected filter keeps exactly the trees that no other tree contains, each once, at its first occurrence |
| SealCli.DropSubtreesCovers | seal/cli.go:64-80 | every given tree lies inside some tree the corrected filter keeps |
| SealCli.DropSubtreesMinimal | seal/cli.go:64-80 | no kept tree contains another given tree |
| SealCli.KeptFromDistinct | seal/cli.go:64-80 | the corrected filter keeps no tree twice |
| SealCli.DropSubtreesNonEmpty | seal/cli.go:75-77 | the corrected filter never leaves a non-empty list empty, so the panic cannot happen |
| SealCli.NestedTreeDropped | seal/cli.go:64-80 | the corrected filter reduces ["/a", "/a/b", "/c"] to ["/a", "/c"] |
| SealCli.SiblingKept | seal/cli.go:64-80 | the corrected filter keeps both "/a" and "/ab" |
| SealAgg.Lits | seal/agg.go:16 | a literal part of the pattern matches exactly its own text |
| SealAgg.FullMatchConcat | seal/agg.go:16 | patterns that match two strings match their concatenation |
| SealAgg.DigitsMatch | seal/agg.go:16-29 | a zero-padded number of width w matches `\d{w}` when it fits |
| SealAgg.IndexNameMatches | seal/agg.go:15-30 | every index name produced for a date within four-digit years matches the recognising pattern in full |
| SealAgg.NameSuffixRecognised | seal/agg.go:15-30 | the recognising pattern matches any directory followed by the index name for any in-range time |
| SealAgg.IndexPathRecognised | seal/agg.go:15-30 | the recognising pattern matches the joined, cleaned index path whenever cleaning keeps the file name at its end |
| Text.ZeroPaddedWidth | seal/agg.go:21 | `%0wd` of a number that fits has exactly w digits |
| SealAgg.WriteIndex | seal/agg.go:35-62 | no paths is an error that touches nothing; the index is written iff there are paths and neither opening nor serialising fails; success leaves exactly the index file; a failure leaves no index unless serialising failed and removing the half-written file failed too; an open failure touches nothing |
| SealAgg.Recorded | seal/agg.go:67-73 | recording adds the entry to its root's list and leaves every other tree's list unchanged |
| SealAgg.Handled | seal/agg.go:78-93 | an error result is forwarded unchanged; otherwise only the message changes, to "DONE ..." + relative path, or "DONE CP src -> dest" for a copy |
| SealAgg.Aggregation.constructor | seal/agg.go:64-65 | a fresh aggregation has no trees recorded, and keeps the writer count |
| SealAgg.Aggregation.ResultHandler | seal/agg.go:67-94 | records the result in place, reports whether it was good, and forwards the handled result |
| SealAgg.Insert | seal/agg.go:127 | inserting into a longest-first list keeps it longest-first and adds exactly that entry |
| SealAgg.SortLongestFirst | seal/agg.go:127 | the sorted entries are longest path first and a permutation of the input |
| SealAgg.Dir | seal/agg.go:149-151 | the parent directory is never empty and is shorter than the path unless it is "." or "/" |
| SealAgg.DirRank | seal/agg.go:149-151 | climbing to the parent strictly shrinks the path unless the root is reached, so the crawl ends |
| SealAgg.Crawl | seal/agg.go:145-151 | walking up only removes directories and only adds operations after the existing ones; whether a directory gives way depends on what the rollback has removed so far |
| SealAgg.DirectoryGivesWayLater | seal/agg.go:129-151 | rolling back two new files in one directory: the first walk-up fails on the still non-empty directory, the second removes it and its parent and stops at the tree |
| SealAgg.RollbackEntry | seal/agg.go:129-161 | an existing file is kept with an Info message and nothing removed; any other file is removed first, then only directories; the result is an error iff the removal failed |
| SealAgg.Rollback | seal/agg.go:117-162 | the rollback gives one result per entry |
| SealAgg.Aggregation.Finalize | seal/agg.go:96-189 | the loop over the trees yields each tree's results in order, then the summary; the error count grows by the index failures; each tree's index is named with its own clock reading |
| SealAgg.FinalizeOne | seal/agg.go:102-178 | the loop body for one tree equals the per-tree specification `FinalizeTree` |
| SealAgg.HasError | seal/agg.go:109-115 | the scan finds an error iff some entry of the tree failed |
| SealAgg.RollbackAll | seal/agg.go:117-162 | the rollback loop equals the `Rollback` specification |
| SealAgg.CrawlUp | seal/agg.go:149-151 | the upward directory loop equals the `Crawl` specification |
| SealAgg.FileRemovalsAppend | seal/agg.go:117-162 | file removals of concatenated operations concatenate |
| SealAgg.NoFileRemovals | seal/agg.go:149-151 | directory removals remove no files |
| SealAgg.EntryRemovals | seal/agg.go:129-161 | rolling back one entry removes exactly its file unless it existed before |
| SealAgg.RollbackRemovals | seal/agg.go:117-162 | a rollback removes exactly the entries' files that did not exist before, in order |
| SealAgg.RemovableFrom | seal/agg.go:129-148 | every removed file comes from an entry that did not exist before |
| SealAgg.RemovableLongestFirst | seal/agg.go:127-148 | files removed from a longest-first list are removed longest first |
| SealAgg.RollbackOrder | seal/agg.go:117-162 | a failed tree in copy mode has its new files removed longest path first, and no file that existed before is removed |
| SealAgg.FailedTreeNotIndexed | seal/agg.go:109-162 | a failed tree gets no index and no index error; without writers it is left alone |
| SealAgg.IndexOnlyWhenClean | seal/agg.go:163-178 | an index is attempted exactly for a tree with entries, no failure and no cancellation; it gives one result, an error iff writing failed |
| SealAgg.IndexFilesAppend | seal/agg.go:117-178 | operations that are not index operations leave the index files as they were |
| SealAgg.CancelledWritesNoIndex | seal/agg.go:163-170 | after cancellation no tree gets an index and no index error is counted |
| SealAgg.RollbackKeepsIndexFiles | seal/agg.go:117-162 | a rollback never creates or removes an index file |
| SealAgg.IndexErrorsBounded | seal/agg.go:168-170 | at most one index error per tree, and none when every tree is empty or failed |
| GobCodec.Infos | codec/gob.go:33-64 | every file information becomes one entry, in order |
| GobCodec.Encoded | codec/gob.go:33-64 | the stream is the version, the entries, the end marker, then the signature of the entries |
| GobCodec.Serialize | codec/gob.go:33-64 | the writer loop produces exactly the `Encoded` stream |
| GobCodec.Deserialize | codec/gob.go:66-122 | the reader loop produces exactly what `Deserialized` describes, entries and error |
| GobCodec.ForwardedAll | codec/gob.go:105-107 | a predicate that accepts everything forwards every entry and never stops early |
| GobCodec.MarkerEndsEntries | codec/gob.go:93-99 | decoding the end marker as an entry reports the type-mismatch phrase; end of stream does not |
| GobCodec.EntriesOfFramed | codec/gob.go:87-121 | reading the rest of a framed stream forwards the remaining entries and checks the signature unless stopped |
| GobCodec.ReadFramed | codec/gob.go:66-122 | reading a framed stream forwards the accepted entries; the signature is an error iff it differs from the hash and reading was not stopped |
| GobCodec.RoundTrip | codec/gob.go:33-122 | deserialising a serialised list with an accepting predicate gives the list back with no error |
| GobCodec.TamperedSignature | codec/gob.go:111-121 | a wrong signature is reported as a signature mismatch after every entry was forwarded |
| GobCodec.RejectionSkipsSignature | codec/gob.go:105-107 | a predicate that rejects the first entry stops reading with no error and no check of the signature |
| GobCodec.WrongVersion | codec/gob.go:77-85 | an unsupported version is an error before any entry is read |
| GobCodec.TruncatedStream | codec/gob.go:87-100 | a stream that ends after the entries forwards them and reports the end-of-stream error |
| GobCodec.TruncatedFrom | codec/gob.go:87-100 | from any point of a truncated stream the remaining entries are forwarded and the end-of-stream error follows |
| GobCodec.CorruptEntry | codec/gob.go:93-99 | a corrupt entry whose error text lacks the mismatch phrase ends reading with that error |
| GobCodec.CorruptFrom | codec/gob.go:93-99 | from any point before a corrupt entry the entries are forwarded, then that error is reported |
| Reader.ReadChannelController.constructor | utility/reader.go:127-129 | a controller's request channel has the given capacity |
| Reader.NewReadChannelController | utility/reader.go:122-129 | fewer than one process is refused; otherwise a new controller has exactly nprocs streams |
| Reader.SumStreamsRemove | utility/reader.go:225-243 | taking one controller out of the set takes out exactly its streams |
| Reader.ReadChannelDeviceMapStreams | utility/reader.go:220-244 | an empty map is refused; otherwise the result is the streams of every distinct controller, each counted once |
| Reader.Seen | utility/reader.go:230-236 | the inner search reports whether the controller is already among those counted |
| Reader.SingleController | utility/reader.go:225-243 | a map whose keys all share one controller counts its streams once |
| Reader.SharedControllerCountedOnce | utility/reader.go:225-243 | adding a key for a controller already present does not change the count |
| Reader.NewControllerAdds | utility/reader.go:225-243 | adding a key for a new controller adds its streams |
| Reader.WriteTo | utility/reader.go:84-116 | the loop produces exactly the `Tallied` fold of the reads |
| Reader.PanicSticks | utility/reader.go:109-111 | once a read violates the protocol, later reads change nothing |
| Reader.TalliedAccounting | utility/reader.go:84-116 | a panic happens iff some read returns no bytes and no error; otherwise the count is the sum of the bytes written |
| Reader.WrittenSumPrefix | utility/reader.go:94-95 | the bytes written by the first k reads depend only on those reads |
| Reader.TalliedError | utility/reader.go:100-106 | the reported error is the one the last write or the last read left, with end of stream not reported |
| Reader.EOFNotReported | utility/reader.go:100-106 | a stream that ends with end of stream, and whose last write succeeds, reports no error |
| Reader.LostWriteError | utility/reader.go:94-106 | as written, a failed write followed by a successful one reports no error |
| Reader.KeptErrorReported | utility/reader.go:94-106 | with the first failure kept, an error is reported iff some read or write failed |
| Reader.KeptErrorSameCount | utility/reader.go:84-116 | keeping the first failure changes neither when the loop panics nor the byte count |

## Left out

- Goroutines, channels and the `done` cancellation channel are left out. They are replaced by their effect: results arrive as a sequence, and cancellation is a flag for `Finalize`.
- `NewReadChannelDeviceMap`, `NewChannelReaderFromPath` and the reader goroutines are left out. They perform file-system and channel I/O; only the stream count and the `WriteTo` accounting are modelled.
- `SealCommand.Gather`, `FileInformation`, `SetUnparsedArgs`, `MaxProcs` and `Gob.Extension` are left out. They only forward to code outside this model or return constants; `GobExtension` itself is modelled.
- The gzip compression, gob encoding and sha1 internals are left out. Entries are tokens, and the signature is a function parameter.
- `GobCodec.Serialize`: writer and encoder errors are not modelled; the model always produces the whole stream.
- The gob error texts are approximations. Only whether a text contains "type mismatch in decoder" matters to the code.
- `SealAgg.Dir` models `filepath.Dir` without its final `Clean`. Paths are taken to be clean already.
- `IndexBaseName` is modelled as a parameter, and its regular-expression metacharacters as literals. The `%v` statistics text is an input string.
- `SealAgg.Aggregation.Finalize` iterates the trees in an order that is an input, because Go's map order is not specified.
- `SortLongestFirst` is modelled by an insertion sort. `sort.Sort` may order paths of equal length differently.
- Angular's `$resource` internals, `$watchCollection`'s snapshot diffing and the WebSocket protocol are left out. The watch firing is an `Observed` event, and a readyState change is an event.
- The server (web/server/app.go), the command-line front end (cli/app/app.go) and the verify command (verify/cli.go) are not part of this model.
- IndexPathRecognised: assumes `path.Clean` keeps the index file name at the end of the joined path (`KeepsName`). `path.Clean` is a parameter, so this is not derived.
- SealTypes.SealCommand.NewCommand: the error of `BasicRunner.Init` and the filter and verbosity settings it initialises are not modelled; the constructor always succeeds.
- Web.GodiController.EditState: the model changes the watched state's fields. Assigning a new object to `$scope.state`, where a pending PUT or refetch would still write into the old object, is not modelled.
- The argument types of `writeIndex` and `Gob.Serialize` do not agree in the source (a slice versus a channel). The model passes the entries as one list.

## Findings

| source | as written | input that shows it | evidently intended | confidence | as-written member | corrected member |
|---|---|---|---|---|---|---|
| seal/cli.go:64-80 | the inner loop appends the outer tree each time it is not prefixed by another tree, so trees repeat, and a nested tree survives when a third tree is present | trees "/a", "/a/b", "/c" give "/a", "/a", "/a/b", "/c", "/c" | keep each tree once, dropping every tree that lies inside another | not executed | SealCli.NestedTreeSurvives | SealCli.DropSubtreesMinimal |
| seal/cli.go:64-80 | subtrees are detected by a string prefix, so a sibling whose name extends another tree's name is dropped | trees "/a", "/ab" give only "/a" | a tree lies inside another only by whole path components | not executed | SealCli.SiblingDropped | SealCli.SiblingKept |
| utility/reader.go:94-106 | a write error is overwritten by the next write's result, so a later successful write hides it | write 0 fails, write 1 succeeds, then end of stream: no error reported | keep the first write error | not executed | Reader.LostWriteError | Reader.KeptErrorReported |
