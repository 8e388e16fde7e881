# Vearch: documents, scalar indexes, indexing thread, router

A Dafny model of the parts of Vearch that have to agree with each other while writes, index
changes, crashes and restarts go on, and of the router that spreads requests over partitions
and puts the answers together again. `dafny verify dfyconfig.toml` checks all of it.

**Keys and indexes.** `Bytes` and `KeyLayout` give the byte keys of the scalar column family:
lexicographic order, prefix ranges, sign-flipped big-endian values, index keys, composite keys
and BUILDING markers. `ScalarStore` is the column family as an ordered key set. `InvertedIndex`
scans those keys, `BitmapIndex` unions buckets of a sorted map, `Paging` cuts answers by offset and
limit, and `ScalarQuery` says what a table scan would answer. `ScalarFilter` is the dispatch of a
filter to an index operation.

**Documents.** `Documents` is the engine's document state as a value: rows, key to docid map,
delete bitmap, docid frontier and index entries. It proves what every run of upserts and deletes
keeps. `RowKeys` is the table's column family, with rows and "_id" strings under the text of their
docid. `Tables` and `Engine` do the same writes on objects, keys, bitmap buckets and real column
families, and each method is tied to the value it refines.

**Index changes under way.** `IndexLifecycle` is the state machine of adding and removing indexes
while the engine runs, with markers, the master's schema, a crash at any step and the repair in
Load. `IndexProgress` shows that requests, removals and restarts reach their end in it.
`IndexBuild` looks inside one build and interleaves it with the calls of a single document write.
`IndexBackfill` does the same for the lock-free backfill. `TaskQueue` is the maintenance queue.

**Indexing thread.** `IndexingThread` interleaves BuildIndex, Indexing, stop requests and waiters
over the four-state flag, the mutex and the condition variable, for any number of callers.
`IndexingProgress` says when calls return, and that they do.

**Router and master.** `Routing` and `Ranges` decide where documents go, `Retry` which replica a
search is sent to, `MergeSearch` and `MergeStatus` fold the replies, `FailRecovery` moves the
partitions of a dead server.

**Algorithms.** `SortByDocid`, `MultiGet`, `InvertedListsIO` and `DocExport`.

Concurrent code is modelled as steps. A step that is not enabled changes nothing, so a theorem
over all step sequences is a theorem over all schedules. Clocks, sleeps, storage failures and
network results are parameters or arbitrary choices. Scores are reals.

## What does not hold, and exactly when it does

- A READY index can keep a stale key. The build lock covers single AddDoc and DeleteDoc calls, so
  a build can run after an update's DeleteDoc and before its row write
  (`IndexBuild.BuildCanLeaveStaleKey`). The index is exact if and only if no document was read by
  the scan inside that window and since then neither deleted nor set back to the value it had there
  (`IndexBuild.ReadyIsExactIff`).
- A restart trusts an index that is listed in the schema without a marker. Restarts are safe after
  all further writes if and only if each listed index has a marker or is READY
  (`IndexLifecycle.RestartSafeIffCovered`). A removal carried out while the name is listed breaks
  this (`IndexLifecycle.RemovingListedUncovers`), and so does the master's undo of a failed removal,
  whose add is answered OK and ignored (`IndexLifecycle.AddBehindRemovalIsLost`). The master sends a
  removal before it unlists the name; that is safe as long as the worker takes it up after
  (`IndexLifecycle.CleanRunStaysCovered`).
- A failed training stores IDLE and notifies without the mutex. A waiter is missed if and only if
  it stands between its check and its block at that moment (`IndexingThread.MissedIff`).
- A stop request can end up waiting for a thread nobody asked to stop. It does if and only if its
  second attempt still met STARTING or a BuildIndex overtook it after its last attempt, and since
  then no other request stopped the thread, no training failed and it has not returned
  (`IndexingThread.UnheardIffDropped`).
- An exclusive bound at the end of an integer type wraps in the inverted index
  (`InvertedIndexes.ScanBoundsExact`). Equal bounds are answered by Equal even when exclusive, and
  Not is dropped for different bounds (`ScalarFilter.DispatchMeansBounds`,
  `ScalarFilter.DispatchOfNot`). Bounds in the wrong order start the bitmap index's loop past its
  end (`BitmapIndexes.BitmapIndex.Range`).
- The two kinds of index page in different orders, by value and by docid. Their pages agree if and
  only if the selected docids rise with their values (`ScalarFilter.PagesAgreeIff`).
- An update is carried out and still reported as -1, exactly when the trained vector index cannot be
  extended (`Documents.UpsertMeaning`).
- A new document whose vectors are refused leaves its key at a docid that is not taken. The key is
  refused until the next new key takes that docid, and from then on the two share it, old index
  entries included (`Documents.RejectedStoreBreaksKeys`): an upsert of the one rewrites the other's
  row, and a delete of the one takes the other's document away (`Documents.SharedDocidBreaksBoth`). A
  delete of the refused key in between makes the next new document deleted from the start
  (`Documents.BornDeleted`). Every other upsert keeps the state exact (`Documents.UpsertKeepsInvIff`).
- A delete erases whatever the table's column family stores under the text of the key. If that is
  the storage key of another live document's row or "_id" string, that document loses it: in a new
  engine, add "a" and "0000000000", delete "0000000000", and the row of "a" is gone
  (`Documents.ErasingRun`). Every other delete keeps the state exact (`Documents.DeleteKeepsInvIff`),
  so a run is exact at every point if and only if it has neither kind of write
  (`Documents.RunExactIff`).
- The export's done marker does not mean a complete export (`DocExport.DoneMeansComplete`).
- A fail record that is deleted and not put back loses its partitions
  (`FailRecovery.NothingLostIff`).
- Two partitions of one failed server can be moved to one new server, because a server is registered
  as empty until its own heartbeat (`FailRecovery.TwoMovesOneTarget`). The targets of every scan
  differ if and only if no server can be moved to at two of its turns
  (`FailRecovery.TargetsDifferIff`).
- A timestamp also falls in a new range whose bound equals its old one
  (`Ranges.TimestampsKeepTheirRange`). New ranges that pass RangeIsSame can spoil the rule; it stays
  well formed if and only if they are named, not negative, differ in name and instant, and miss
  every old instant (`Ranges.AddedWellFormedIff`). The limits on their number are not checked again
  either (`Ranges.AddedAcceptedIff`).
- Once there is a result, replies of m rows are merged row by row if and only if m is at most one or
  at least the number of rows in the result (`MergeSearch.RowByRowIff`). The answer does not depend
  on the order of arrival if and only if all replies with rows have equally many
  (`MergeSearch.OrderFreeIff`).

Where comments and code differ the code is followed: the comment on the marker prefix says
composite keys begin with 0xFF, while BuildCompositeHeader begins them with a field id.

## Model

| member | source | states |
|---|---|---|
| `Bytes.PrefixRangeExact` | internal/engine/table/scalar_index_utils.cc:381-391 | a key lies in [p, AdvancePrefix(p)) exactly when it starts with p; with no upper bound, at or above p exactly when it starts with p |
| `Bytes.AdvancePrefix` | internal/engine/table/scalar_index_utils.cc:381-391 | the loop's result bounds exactly the keys with the prefix, and is empty exactly when every byte is 0xFF |
| `KeyLayout.SortableOrder` | internal/engine/table/scalar_index_utils.cc:139-169 | sign-flipped big-endian bytes compare as the signed integers do, and only equal values share an encoding |
| `KeyLayout.SortableExtremes` | internal/engine/table/scalar_index_utils.cc:353-379 | the minimal and maximal byte strings encode the type's smallest and largest values |
| `KeyLayout.HeaderPrefixFree` | internal/engine/table/composite_index.cc:31-40 | no index header is a prefix of another index's key |
| `KeyLayout.IndexKeyInjective` | internal/engine/table/inverted_index.cc:25-31 | one key belongs to one (fields, values, docid), across inverted and composite indexes |
| `KeyLayout.DocidAtTail` | internal/engine/table/composite_index.cc:96-100 | the last eight bytes of any index key decode to its docid |
| `KeyLayout.FieldsAtHead` | internal/engine/table/composite_index.cc:31-40 | the first bytes of any index key decode to its field ids, four bytes each, with the separator behind them |
| `KeyLayout.DropRangeExact` | internal/engine/table/inverted_index.cc:140-165 | the range DropAll deletes holds every key of its own index and no key of another index, composite ones included, and no BUILDING marker |
| `KeyLayout.NaiveBoundMissesMaximum` | internal/engine/table/inverted_index.cc:142-147 | the bound prefix + 0xFF would leave the keys of the largest value behind |
| `ScalarStore.WriteRefines` | internal/engine/table/inverted_index.cc:33-125 | putting or deleting one document's key changes exactly its entry, no other entry and no marker |
| `ScalarStore.DropRefines` | internal/engine/table/inverted_index.cc:127-172 | DropAll's range delete removes one index's entries and nothing else |
| `ScalarStore.Seek` | internal/engine/table/inverted_index.cc:174-206 | the iterator's seek: all before is below the target, all from there on is not |
| `ScalarQuery.AnswerIsTableScan` | internal/engine/table/inverted_index.cc:243-261 | postings exact on live documents answer every query, the negated ones included, like a scan of the column once deleted docids are dropped |
| `Paging.PageIsSlice` | internal/engine/table/inverted_index.cc:188-204 | over distinct docids, offset and limit cut out the expected slice |
| `Paging.CutPage` | internal/engine/table/scalar_index_result.h:29-52 | the result with offset and limit is that slice of the docids in ascending order, empty for a negative number, everything for two zeros |
| `InvertedIndexes.ScanMeetsInOrder` | internal/engine/table/inverted_index.cc:174-206 | a scan meets exactly the postings of its query, ordered by value and then docid |
| `InvertedIndexes.PagedScanIsSlice` | internal/engine/table/inverted_index.cc:188-204 | with one value per docid, a scan with offset and limit returns that slice of the query's postings in value and docid order |
| `InvertedIndexes.ScanFindsPostings` | internal/engine/table/inverted_index.cc:174-206 | an unpaged scan of the ordered keys finds exactly the postings that satisfy its query |
| `InvertedIndexes.BoundsFindPostings` | internal/engine/table/inverted_index.cc:263-283 | scanning between a query's adjusted bounds gives its postings when no bound wraps, and the postings of the wrapped bounds otherwise |
| `InvertedIndexes.ValuesFindPostings` | internal/engine/table/inverted_index.cc:208-241 | the prefix scans of In, value after value, find exactly the postings with one of the values |
| `InvertedIndexes.ScanBoundsExact` | internal/engine/table/scalar_index_utils.cc:302-351 | the adjusted bounds mean the query if and only if no exclusive bound sits at the end of the type |
| `InvertedIndexes.InvertedIndex.AddDoc` | internal/engine/table/inverted_index.cc:33-79 | adds exactly the document's key, or fails and changes nothing when it has no row |
| `InvertedIndexes.InvertedIndex.DeleteDoc` | internal/engine/table/inverted_index.cc:81-125 | removes exactly the document's current key |
| `InvertedIndexes.InvertedIndex.DropAll` | internal/engine/table/inverted_index.cc:127-172 | removes exactly the keys with this index's header; the empty-bound guard never fires |
| `InvertedIndexes.InvertedIndex.ScanRange` | internal/engine/table/inverted_index.cc:174-206 | the iterator loop visits exactly the accepted keys in order, under offset and limit |
| `InvertedIndexes.InvertedIndex.In` | internal/engine/table/inverted_index.cc:208-241 | the postings of one value after the other, each in docid order, cut by offset and limit; uncut, exactly the postings with one of the values |
| `InvertedIndexes.InvertedIndex.NotIn` | internal/engine/table/inverted_index.cc:243-261 | the docids below the storage size without a posting among the values, cut in docid order |
| `InvertedIndexes.InvertedIndex.Equal` | internal/engine/table/inverted_index.cc:285-287 | the postings of the value in docid order, cut by offset and limit |
| `InvertedIndexes.InvertedIndex.Range` | internal/engine/table/inverted_index.cc:263-283 | the postings between the adjusted bounds in value and docid order, cut by offset and limit; exactly those in the range unless a bound wraps |
| `InvertedIndexes.InvertedIndex.LessThan` | internal/engine/table/inverted_index.cc:293-307 | the postings below the value unless it is the type's smallest, in value and docid order, cut by offset and limit |
| `InvertedIndexes.InvertedIndex.LessEqual` | internal/engine/table/inverted_index.cc:309-321 | the postings not above the value, in value and docid order, cut by offset and limit |
| `InvertedIndexes.InvertedIndex.GreaterThan` | internal/engine/table/inverted_index.cc:323-337 | the postings above the value unless it is the type's largest, in value and docid order, cut by offset and limit |
| `InvertedIndexes.InvertedIndex.GreaterEqual` | internal/engine/table/inverted_index.cc:339-351 | the postings not below the value, in value and docid order, cut by offset and limit |
| `BitmapIndexes.BitmapIndex.Init` | internal/engine/table/bitmap_index.cc:26-42 | the rebuilt index holds the current value of every docid with a row |
| `BitmapIndexes.BitmapIndex.AddDoc` | internal/engine/table/bitmap_index.cc:44-77 | adds exactly the document's posting |
| `BitmapIndexes.BitmapIndex.DeleteDoc` | internal/engine/table/bitmap_index.cc:79-107 | removes exactly the document's current posting |
| `BitmapIndexes.BitmapIndex.In` | internal/engine/table/bitmap_index.cc:116-131 | the docids of exactly the postings with one of the values, cut in docid order |
| `BitmapIndexes.BitmapIndex.NotIn` | internal/engine/table/bitmap_index.cc:133-154 | the docids below the storage size without a posting among the values, cut in docid order |
| `BitmapIndexes.BitmapIndex.Range` | internal/engine/table/bitmap_index.cc:156-179 | exactly the postings in the range, cut in docid order; undefined exactly when some bucket's value fails both bounds |
| `BitmapIndexes.BitmapIndex.Equal` | internal/engine/table/bitmap_index.cc:181-194 | the docids of exactly the postings with the value, cut in docid order |
| `BitmapIndexes.BitmapIndex.LessThan` | internal/engine/table/bitmap_index.cc:215-229 | exactly the postings below the value, cut in docid order |
| `BitmapIndexes.BitmapIndex.LessEqual` | internal/engine/table/bitmap_index.cc:231-245 | exactly the postings not above the value, cut in docid order |
| `BitmapIndexes.BitmapIndex.GreaterThan` | internal/engine/table/bitmap_index.cc:247-260 | exactly the postings above the value, cut in docid order |
| `BitmapIndexes.BitmapIndex.GreaterEqual` | internal/engine/table/bitmap_index.cc:262-275 | exactly the postings not below the value, cut in docid order |
| `ScalarFilter.DispatchMeansBounds` | internal/engine/table/scalar_index_manager.cc:677-728 | the chosen operation means the filter's bounds if and only if equal bounds are both inclusive |
| `ScalarFilter.DispatchOfNot` | internal/engine/table/scalar_index_manager.cc:677-728 | a negated filter is the complement of its bounds if and only if the bounds are equal and inclusive |
| `ScalarFilter.FilterInverted` | internal/engine/table/scalar_index_manager.cc:677-728 | a filter through RocksDB keys is the page of its query's postings; without offset and limit a table scan once deleted docids are dropped, unless a bound wraps |
| `ScalarFilter.FilterBitmap` | internal/engine/table/scalar_index_manager.cc:677-728 | a filter through buckets is the page of the same answer in docid order, uncut the same table scan; bounds in order always give an answer |
| `ScalarFilter.IndexesAgree` | internal/engine/table/bitmap_index.cc:116-275 | an inverted and a bitmap index that are exact on one column answer every query alike on live docids |
| `ScalarFilter.PagesAgreeIff` | internal/engine/table/bitmap_index.cc:109-114 | with one value per docid all pages of the two kinds of index agree if and only if the selected docids rise with their values |
| `ScalarFilter.WrappedBoundReturnsEverything` | internal/engine/table/scalar_index_utils.cc:302-351 | "below the smallest" and "above the largest" return every posting through the inverted index although none satisfies them |
| `Documents.UpsertKeepsInvIff` | internal/engine/search/engine.cc:697-785 | an upsert keeps keys, docids, rows and every index exact if and only if it is not a new document whose vectors are refused |
| `Documents.DeleteKeepsInvIff` | internal/engine/search/engine.cc:869-900 | a delete keeps keys, docids, rows, "_id" strings and every index exact if and only if its key is not the storage key of another live document's row or "_id" string |
| `Documents.UpsertMeaning` | internal/engine/search/engine.cc:697-785 | after an admitted upsert the key's row has each given field's value, and elsewhere its old values, or zeros if the key is new; no other key is touched, and any other upsert changes nothing a client sees; which of the modelled requests are reported as errors, the carried-out ones among them included |
| `Documents.UpsertCode` | internal/engine/search/engine.cc:697-785 | the return code of every modelled upsert, by what the request and the vector side are |
| `Documents.DeleteMeaning` | internal/engine/search/engine.cc:869-900 | a delete removes its key and the key whose row is stored under that text, and no other, and fails exactly for a missing key |
| `Documents.RunKeepsInv` | internal/engine/search/engine.cc:697-900 | over every run of upserts, with vectors taken or refused, and deletes, up to the first refused new document or delete of a storage key, each index holds exactly the live documents' current values and keys match live docids one to one |
| `Documents.RunExactIff` | internal/engine/search/engine.cc:697-900 | a run is exact at every point if and only if none of its writes is a refused new document or a delete of another live document's storage key |
| `Documents.RunGrows` | internal/engine/search/engine.cc:697-900 | over every such run the docid frontier only moves up, a key keeps its docid until that is deleted and deletions are never taken back |
| `Documents.DocidsNeverReused` | internal/engine/search/engine.cc:697-900 | over every such run a docid that served one key never serves another |
| `Documents.DocsNumIsKeyCount` | internal/engine/search/engine.cc:1138-1138 | max_docid_ - delete_num_ is the number of live keys |
| `Documents.IndexedFieldIsExact` | internal/engine/search/engine.cc:697-900 | so in every state such a run reaches an indexed field's postings agree with its column on live documents, and every live document is in that column |
| `Documents.IndexHoldsCurrentValues` | internal/engine/table/scalar_index_manager.cc:180-225 | in every state such a run reaches an index over one or several fields holds a live document under exactly its current values of those fields, in the index's order |
| `Documents.RejectedStoreBreaksKeys` | internal/engine/search/engine.cc:730-745 | after a refused new document its key is refused with -2 until the next new key, which takes and then shares its docid; an index is exact afterwards if and only if both documents have the same values in it |
| `Documents.SharedDocidBreaksBoth` | internal/engine/search/engine.cc:697-900 | of two keys that share a docid, an upsert of the one rewrites the other's row, and a delete of the one takes the other's document away but not its key, which no delete removes any more |
| `Documents.BornDeleted` | internal/engine/search/engine.cc:730-745 | if the refused key is deleted first, the next new document is accepted and deleted from the start |
| `Documents.ErasedRow` | internal/engine/table/table.cc:341-341 | a delete of a key that is another document's row key leaves that document live under its key, without a row, and refuses every later update of its fields |
| `Documents.ErasedRowLingers` | internal/engine/table/table.cc:341-341 | and every index keeps its entry, with a value the table no longer has |
| `Documents.ErasedId` | internal/engine/table/table.cc:341-355 | a delete of a key that is another document's "_id" storage key leaves that document with its row and without its "_id" |
| `Documents.ErasingRunFrom` | internal/engine/table/table.cc:333-358 | from any exact state two accepted upserts and one delete lead to a live document without a row |
| `Documents.ErasingRun` | internal/engine/table/table.cc:333-358 | so they do in a new engine with the keys "a" and "0000000000" |
| `RowKeys.RowKeysApart` | internal/engine/util/utils.cc:515-525 | no two docids share a row key or an "_id" key, and no row key is an "_id" key |
| `RowKeys.EraseRefines` | internal/engine/storage/storage_manager.cc:303-324 | deleting one text from the column family removes exactly the row and the "_id" string stored under it |
| `Tables.Table.Add` | internal/engine/table/table.cc:220-270 | a new row with the given fields' values and zeros elsewhere, its key and id; an empty key changes nothing |
| `Tables.Table.Update` | internal/engine/table/table.cc:272-306 | the given fields of one row get the given values, and nothing else changes; without a row a request with fields fails |
| `Tables.Table.Delete` | internal/engine/table/table.cc:333-358 | the key and its "_id" string go, and with them the row and "_id" string stored under the text of the key; the document's own row stays |
| `Engines.Engine.IndexDoc` | internal/engine/table/scalar_index_manager.cc:180-202 | every inverted, composite and bitmap index, or every one covering the field, gets exactly the document's entry |
| `Engines.Engine.UnindexDoc` | internal/engine/table/scalar_index_manager.cc:204-225 | every inverted, composite and bitmap index, or every one covering the field, loses exactly the document's entry |
| `Engines.Engine.Update` | internal/engine/search/engine.cc:831-867 | the two index loops around the row write have the effect of the update on values, composite and bitmap indexes included; without a row nothing changes, and a request with fields is reported as -1 |
| `Engines.Engine.AddOrUpdate` | internal/engine/search/engine.cc:697-785 | on real keys and buckets the whole upsert has the effect and the return code of the upsert on values |
| `Engines.Engine.Delete` | internal/engine/search/engine.cc:869-900 | on real keys and buckets the whole delete has the effect of the delete on values; the return code is that one's when nothing changes and the vector side's otherwise |
| `Engines.Engine.GetDoc` | internal/engine/search/engine.cc:912-934 | the document itself if live, or the next live one after it |
| `Engines.Engine.Filter` | internal/engine/table/scalar_index_manager.cc:677-728 | on a field whose inverted index is exact, as it is in every state the writes reach, a filter answered from RocksDB keys is the page of its postings, uncut the scan of that column |
| `Engines.Engine.FilterHeld` | internal/engine/table/scalar_index_manager.cc:677-728 | the same for a field with a bitmap index, answered from memory and paged by docid |
| `Engines.Engine.Run` | internal/engine/search/engine.cc:697-900 | any sequence of writes on the engine's objects, none of them a breaking one, ends in the state of the run on values and keeps it exact |
| `Engines.Engine.RunThenFilter` | internal/engine/table/scalar_index_manager.cc:677-728 | after any such sequence a filter through RocksDB keys whose bounds do not wrap is the scan of the column as the writes left it |
| `Engines.Engine.RunThenFilterHeld` | internal/engine/table/scalar_index_manager.cc:677-728 | after any such sequence an answered filter through buckets is the scan of the column as the writes left it |
| `Engines.Engine.RebuildAll` | internal/engine/table/scalar_index_manager.cc:634-675 | after the rebuild on load every bitmap index is exact on live documents, and every other index as exact as it was |
| `Engines.StoredPostings` | internal/engine/table/inverted_index.cc:25-31 | the keys under a field's header, read back, are exactly that field's entries, with markers and composite keys in the same column family |
| `DocExport.GetDoc` | internal/engine/search/engine.cc:912-934 | the skip loop finds the first live docid after the given one, or fails exactly when there is none |
| `DocExport.LiveFromIsAscending` | internal/engine/search/engine.cc:919-930 | chaining GetDoc from -1 visits each live docid once, ascending |
| `DocExport.Export` | internal/ps/handler_admin.go:636-760 | the uploaded files are full batches and concatenate to the live docids in order, cut at the first failed read or write; the first upload that fails ends the export, and otherwise the done marker follows unless its own upload fails |
| `DocExport.DoneMeansComplete` | internal/ps/handler_admin.go:747-760 | an export marked done is complete if and only if no read or write failed before the last document |
| `IndexLifecycle.ReadyStaysExact` | internal/engine/search/engine.cc:1404-1440 | over every run of writes, requests, worker steps, crashes and restarts, if each crash finds every listed index marked or READY then every READY index is exact at every point |
| `IndexLifecycle.CleanRunStaysCovered` | internal/engine/search/engine.cc:1609-1642 | over every run in which the master keeps a stated order, removals sent before the name is unlisted included, each listed index is marked or READY at every crash point |
| `IndexLifecycle.NewEngineStaysExact` | internal/engine/search/engine.cc:1404-1440 | the same from a new engine on: with covered crashes every READY index is exact |
| `IndexLifecycle.NewEngineStaysCovered` | internal/engine/search/engine.cc:1609-1642 | from a new engine on, under that order every crash is covered and every READY index exact |
| `IndexLifecycle.RestartSafeIffCovered` | internal/engine/search/engine.cc:1404-1440 | unless a build holds the lock or the index being built is itself listed without a marker, restarts after any further writes find every trusted index exact if and only if each listed index is marked or READY |
| `IndexLifecycle.LoadTrustsUnmarked` | internal/engine/search/engine.cc:1404-1440 | over every order of recovery steps Load leaves an unmarked index READY and as right or wrong as the crash found it |
| `IndexLifecycle.LoadMakesAllReady` | internal/engine/search/engine.cc:1410-1440 | when Load returns, every index it found in the schema is READY |
| `IndexLifecycle.CrashKeepsInv` | internal/engine/search/engine.cc:1404-1409 | a crash at any step of any task loses nothing that Load does not rebuild, if the state is covered |
| `IndexLifecycle.ReadyAnswersLikeScan` | internal/engine/search/engine.cc:1404-1409 | a READY index over one field answers every query like a scan of the table |
| `IndexLifecycle.WriteKeepsInv` | internal/engine/table/scalar_index_manager.cc:180-225 | a document write keeps every READY index exact while others are being built or removed |
| `IndexLifecycle.ScanKeepsInv` | internal/engine/table/scalar_index_manager.cc:366-376 | a build is correct up to the docid it has reached, after each document |
| `IndexLifecycle.RemovingListedUncovers` | internal/engine/table/scalar_index_manager.cc:261-318 | carrying out a removal while the schema still lists the name uncovers it |
| `IndexLifecycle.AddBehindRemovalIsLost` | internal/master/services/space_service.go:1789-1820 | the undo of a failed removal is ignored by the engine and leaves the listed index uncovered |
| `IndexProgress.RequestIsBuilt` | internal/engine/search/engine.cc:1609-1642 | from every state between tasks, a request for a new index and the worker's steps end with the index under its name, READY, exact, without deleted documents and without a marker |
| `IndexProgress.AddIsCarriedOut` | internal/engine/search/engine.cc:1667-1710 | an ADD task at the head of the queue ends so, with the rest of the queue as it was |
| `IndexProgress.RemovalIsCarriedOut` | internal/engine/table/scalar_index_manager.cc:261-318 | a removal ends with the name unknown, its index unpublished, its entries gone and no marker, and touches nothing else |
| `IndexProgress.WorkerStepsOn` | internal/engine/search/engine.cc:1686-1710 | while tasks are left the worker has a step, and each takes one off what is left |
| `IndexProgress.WorkerDrains` | internal/engine/search/engine.cc:1686-1710 | over every schedule of worker steps all tasks are done after exactly as many steps as were left |
| `IndexProgress.CrashThenLoad` | internal/engine/search/engine.cc:1404-1440 | after a crash of a covered state, over every order of recovery steps, Load serves once enough are taken, and then has the schema's indexes, all READY and exact, no marker, and the documents as they were |
| `IndexProgress.CrashedBuildIsRepaired` | internal/engine/search/engine.cc:1404-1440 | a crash at any step of the build of a requested and listed index leads, once Load serves, to that index READY and exact |
| `IndexProgress.RemovedStaysRemoved` | internal/engine/table/scalar_index_manager.cc:261-318 | a removal unlisted before the worker takes it is still gone after a crash and Load |
| `IndexBuild.ReadyIsExactIff` | internal/engine/table/scalar_index_manager.cc:320-395 | over every schedule a READY index holds every live document's value, and is exact if and only if the schedule left no document behind: read by the scan between an update's DeleteDoc and its row write, and since neither deleted nor set back to that value |
| `IndexBuild.ExactWithoutWindow` | internal/engine/table/scalar_index_manager.cc:320-395 | if the lock is not taken between an update's DeleteDoc and its row write, the built index is exact |
| `IndexBuild.CaughtIsLeftBehind` | internal/engine/search/engine.cc:840-852 | the wrong postings are exactly the values the schedule left behind |
| `IndexBuild.BuildCanLeaveStaleKey` | internal/engine/table/scalar_index_manager.cc:320-395 | a schedule ends with a READY index holding both the old and the new value of a live document |
| `IndexBuild.BuildFinishes` | internal/engine/table/scalar_index_manager.cc:320-395 | over every interleaving with writes the index is READY once the builder has taken as many steps as were left |
| `IndexBuild.AddGoesThrough` | internal/engine/search/engine.cc:730-760 | the calls of an add end with the row stored, the document live and its value in a published index |
| `IndexBuild.UpdateGoesThrough` | internal/engine/search/engine.cc:831-867 | the calls of an update end with the new value in the row and, instead of the old one, in a published index |
| `IndexBuild.DeleteGoesThrough` | internal/engine/search/engine.cc:869-900 | the calls of a delete end with the document deleted and its value out of a published index |
| `IndexBackfill.BackfillIsExact` | internal/engine/search/engine.cc:1954-2006 | over every step-by-step interleaving with adds and deletes, a finished lock-free backfill indexes each live document under its value only, every other posting is a deleted document's or that of the document being added, and between writes the index is exact |
| `IndexBackfill.NothingDeletedLingers` | internal/engine/search/engine.cc:1954-2006 | if deletes leave the rows, as they do for numeric fields, a finished backfill holds between writes the live documents' values and nothing else |
| `IndexBackfill.BuildFinishes` | internal/engine/search/engine.cc:1954-2006 | over every interleaving with writes the backfill is finished once the builder has taken as many steps as were left |
| `IndexBackfill.AddGoesThrough` | internal/engine/search/engine.cc:730-760 | the calls of an add end with the row stored, the document live and its value in a published index |
| `IndexBackfill.DeleteGoesThrough` | internal/engine/search/engine.cc:869-900 | the calls of a delete end with the document deleted and its value out of a published index |
| `TaskQueue.ExactlyOnceInOrder` | internal/engine/search/engine.cc:1667-1710 | over every schedule the finished tasks, the one in hand and the queue are together the enqueued tasks in order, and the worker never sleeps on a task or a stop |
| `TaskQueue.ExitsOnlyWhenDrained` | internal/engine/search/engine.cc:1692-1697 | the worker exits only when everything enqueued has completed |
| `TaskQueue.EveryTaskRuns` | internal/engine/search/engine.cc:1686-1710 | with or without a stop, and whatever is enqueued meanwhile, every task in the queue is done, in order, once the worker has taken two steps for each |
| `TaskQueue.CallIsCarriedOut` | internal/engine/search/engine.cc:1667-1684 | a call of EnqueueIndexTask starts the worker if need be, and its task is done behind those enqueued before it |
| `TaskQueue.NoCallIsDropped` | internal/engine/search/engine.cc:1667-1684 | over every schedule each call's task is on its way to the queue or enqueued, once |
| `TaskQueue.WorkerStepsOn` | internal/engine/search/engine.cc:1686-1699 | a started worker has a step unless it has exited or waits on an empty queue, and each step brings it nearer to that |
| `TaskQueue.ShutdownDrains` | internal/engine/search/engine.cc:146-157 | after the stop, with no further enqueue, the worker has done everything and exited once it has taken the steps that were left |
| `TaskQueue.LateEnqueueIsLost` | internal/engine/search/engine.cc:1667-1675 | a task enqueued after the exit never runs |
| `IndexingThread.OneBodyAtATime` | internal/engine/search/engine.cc:972-1136 | over every interleaving at most one body is unfinished, the unexpected-state branch is never taken, and a body is active exactly while the flag says RUNNING or STOPPING |
| `IndexingThread.StopReturnsAfterBody` | internal/engine/search/engine.cc:1140-1170 | when a stop request returns no body is unfinished |
| `IndexingProgress.StopIsLeftAfterBodies` | internal/engine/search/engine.cc:1140-1170 | over every interleaving a stop request enters its wait or join with its call, and is left by no step before every body is finished |
| `IndexingProgress.WaitIsLeftAtIdle` | internal/engine/search/engine.cc:1172-1187 | a wait begins with its call, and is left only while the flag is IDLE |
| `IndexingProgress.EndingStepsOn` | internal/engine/search/engine.cc:1108-1136 | a body that was asked to stop or is past its loop has a step, its own or that of the client that holds the mutex |
| `IndexingProgress.AskedBodyFinishes` | internal/engine/search/engine.cc:1108-1136 | over every schedule of these steps it is finished once as many are taken as were left |
| `IndexingProgress.QuietCallReturns` | internal/engine/search/engine.cc:1140-1187 | once all is quiet every stop request and wait that was not missed returns, over every schedule of its steps and those of the mutex's holders |
| `IndexingProgress.ChanceWakeupRescues` | internal/engine/search/engine.cc:1172-1187 | a missed waiter that wakes by chance gets out like everybody else |
| `IndexingThread.LoopExitLosesNobody` | internal/engine/search/engine.cc:1129-1132 | over every interleaving without a failed training, no waiter is left asleep once all is quiet |
| `IndexingThread.LeftBehindAreMissed` | internal/engine/search/engine.cc:1096-1101 | over every interleaving the waiters left asleep are exactly those a failed training's notification passed by |
| `IndexingThread.MissedIff` | internal/engine/search/engine.cc:1096-1101 | a step misses a waiter if and only if it is that notification and the waiter is between its check and its block |
| `IndexingThread.MissedStays` | internal/engine/search/engine.cc:1172-1187 | a missed waiter stays asleep until a chance wakeup or another BuildIndex |
| `IndexingThread.FailedTrainingCanLoseAWaiter` | internal/engine/search/engine.cc:1096-1101 | a schedule from the start in which a stop request is lost this way |
| `IndexingThread.UnheardIffDropped` | internal/engine/search/engine.cc:1140-1187 | over every schedule a stop request waits for a thread nobody asked to stop if and only if some step went past it (its second attempt met STARTING, or a BuildIndex overtook it) and none since has relieved it |
| `IndexingThread.UnheardStep` | internal/engine/search/engine.cc:1140-1187 | step by step, exactly which steps begin and end such a wait |
| `IndexingThread.StopDuringStartIsDropped` | internal/engine/search/engine.cc:1154-1169 | a schedule from the start in which such a request joins a running loop |
| `IndexingThread.OvertakenJoinIsDropped` | internal/engine/search/engine.cc:1140-1170 | a schedule in which a request that met IDLE is overtaken before its join |
| `IndexingThread.StopCanSleepThroughItsRound` | internal/engine/search/engine.cc:1172-1187 | a schedule from the start in which an overtaking BuildIndex puts the waiter back to sleep in a round nobody stops |
| `IndexingThread.UnstoppedRunsOn` | internal/engine/search/engine.cc:1108-1127 | once a body loops and nobody asks it to stop, whoever waits for it waits on under every schedule |
| `MergeSearch.MergeSortedArrays` | internal/client/client.go:1497-1556 | the merge loops and the cut compute the specified merge, with the two uncut cases at TopN 0 |
| `MergeSearch.MergeSortedIsBest` | internal/client/client.go:1497-1556 | if each side holds the best TopN of its items, the result holds the best TopN of both together |
| `MergeSearch.MergeSortedAtZero` | internal/client/client.go:1497-1556 | with TopN 0 one side alone stays whole and two sides together come to nothing |
| `MergeSearch.SearchResult.AddMergeSort` | internal/client/client.go:1558-1582 | counters add, maxima and time-outs combine and items merge, also when both are one object |
| `MergeSearch.MergeReplies` | internal/client/client.go:837-880 | the receive loop folds the successful replies, in arrival order, into the first one that has rows |
| `MergeSearch.TopNOfAll` | internal/client/client.go:837-906 | the answer has the scores of the first TopN of all items together however ties are sorted, contains only those items, and its hit count is the sum |
| `MergeSearch.PageOfAll` | internal/client/client.go:887-903 | with TopN at least PageSize * PageNum a page has the scores of the matching slice, without int32 overflow |
| `MergeSearch.PageMeaning` | internal/client/client.go:887-903 | any page of a sorted result is nothing past its end, else the slice, and a panic exactly when 32 bits do not hold its beginning or its end |
| `MergeStatus.StatusOfAll` | internal/client/client.go:837-880 | over all partitions that answered a query, hits and status counters of the folded reply are sums, score and time the largest, the partition named the first that took that long, and the time-out mark is set exactly when all have it |
| `MergeSearch.AnyArrivalOrder` | internal/client/client.go:837-906 | any two orders of arrival give the same scores and hit counts |
| `MergeSearch.RowByRowIff` | internal/client/client.go:869-877 | every reply of m rows is merged row by row if and only if m is at most one or at least the rows of the result, and without losing rows if and only if m is at most one or equal |
| `MergeSearch.OrderFreeIff` | internal/client/client.go:837-906 | rows, hit counts and scores of the answer do not depend on the order of arrival if and only if all replies with rows have equally many |
| `Routing.PartitionId` | internal/entity/space.go:210-236 | the binary search loop computes the specified search |
| `Routing.PartitionIdIsOwner` | internal/entity/space.go:210-236 | on increasing slots it finds the one partition with the greatest slot not above the hash, and panics exactly when there is none |
| `Routing.PartitionIdsByRangeField` | internal/entity/space.go:255-285 | the partitions named after the first range whose bound is above the value; an error above every bound |
| `Routing.UpsertByPartitions` | internal/client/client.go:284-349 | a batch is sent exactly when every document has a partition, and on increasing slots each then reaches the partition it belongs to and no other; otherwise the first failing document decides the outcome |
| `Routing.RouteIsBelonging` | internal/client/client.go:284-349 | on increasing slots a document's route is the owner of its hash; with a rule the partition at its hash modulo the number of those named after the first range above its value; among partitions asked for the one at its hash modulo their number |
| `Routing.SentInBatchOrder` | internal/client/client.go:284-349 | each partition is sent its documents in the order of the batch, each position once |
| `Routing.PartitionDocs` | internal/client/client.go:239-259 | splits by hash alone: on increasing slots each document reaches the owner of its hash and no other partition |
| `Routing.BatchIsConserved` | internal/client/client.go:284-349 | together the partitions are sent the batch, each document exactly once |
| `Routing.Reassemble` | internal/client/client.go:463-487 | each output slot holds the last item that came for its document's key, repeated keys included |
| `Routing.SlotShowsLastAnswer` | internal/client/client.go:463-487 | in any order of arrival a slot is empty exactly when no reply has an item for its key, and else shows the last such item, with its reply's error if there is one |
| `Routing.EverySlotIsFilled` | internal/client/client.go:463-495 | if each partition answers for its documents or hands them back with an error, slot i holds an item with document i's key in any order of arrival |
| `Routing.UntakenDocsKeepTheirPartition` | internal/entity/space.go:255-285 | adding ranges with partitions of their own moves no document but those whose timestamp a new bound takes |
| `Ranges.InsertIntoRanges` | internal/entity/partition.go:217-241 | in place when the slice has room, else in a copy: the ranges with the new one at the searched position |
| `Ranges.AddRanges` | internal/entity/partition.go:243-254 | all ranges inserted in turn, and what the rule's own slice shows when there is spare room and the call fails |
| `Ranges.AddRangesOrders` | internal/entity/partition.go:217-254 | on ordered ranges the result is an ordered permutation of old and new |
| `Ranges.AddRangesFailsIff` | internal/entity/partition.go:217-254 | it fails if and only if some new value does not parse |
| `Ranges.TimestampsKeepTheirRange` | internal/entity/partition.go:217-254 | a timestamp falls in one of the new ranges if some new bound lies above it and not above its old bound, in the least such one, the last of equal ones; otherwise it falls where it fell before |
| `Ranges.ValidateRange` | internal/entity/partition.go:153-203 | accepts exactly the rules within the limits whose ranges are named, distinct and strictly rising |
| `Ranges.RangeIsSame` | internal/entity/partition.go:256-279 | reports exactly a name or value repeated in the rule or shared with a new range |
| `Ranges.AddedWellFormedIff` | internal/entity/partition.go:217-279 | after new ranges that pass the check the rule is well formed if and only if they are named, not negative, differ in name and instant, and miss every old instant |
| `Ranges.AddedAcceptedIff` | internal/master/services/space_service.go:1100-1150 | a rule ValidateRange accepted would be accepted again after such an addition if and only if, besides that, both limits on the number of partitions still hold |
| `Ranges.NewRangesMayClash` | internal/entity/partition.go:256-279 | two new ranges with one name or at one instant pass the check and spoil any well-formed rule |
| `Retry.RoundRobin.Next` | internal/client/client.go:1272-1286 | the n-th call for a key takes position n modulo the list's length |
| `Retry.GetNodeId` | internal/client/client.go:1316-1460 | a known replica that is not faulty, in step if that is asked for and not the leader if that is excluded, whenever there is one, else node 0; the leader type always the leader, LeastConnection the least loaded once a load is above ten, NearestConnection one in the zone if there is one; otherwise they take turns in the replicas' order |
| `Retry.EveryoneGetsATurn` | internal/client/client.go:1272-1286 | over as many turns in a row as the pool is long, whatever the first, each of its replicas gets exactly one |
| `Retry.SearchFromPartition` | internal/client/client.go:571-687 | at most one attempt per replica, no nonzero node twice, each a known replica not faulty at the start; marked afterwards are exactly those marked before, those refused and those other requests marked; giving up on refusals means that every replica eligible at the start was refused or marked by another request; the leader type only tries the leader |
| `FailRecovery.RemovePartitionID` | internal/client/master_cache.go:1063-1070 | the list without the first occurrence |
| `FailRecovery.RemovedAllContents` | internal/client/master_cache.go:1346-1348 | removing the recovered partitions leaves exactly the others |
| `FailRecovery.AvailableServers` | internal/client/master_cache.go:1237-1275 | the filter loop keeps exactly the servers that are not the failed one, outside its domain and not live replicas |
| `FailRecovery.Candidate` | internal/client/master_cache.go:1237-1290 | the filter loop, the sort by load and the test of the first server find an available server registered as empty exactly when there is one |
| `FailRecovery.Master.Recover` | internal/client/master_cache.go:1214-1343 | a partition moves only to an available server that the registry read at its turn shows as empty and that is no replica; it stays exactly when there is nothing to move to, a request fails or a replica comes first; the failed server leaves only after the new replica is in |
| `FailRecovery.Master.RecoverAll` | internal/client/master_cache.go:1213-1344 | the loop is a scan of allowed turns, each by the registry read at that turn; the membership and the recovered partitions are those of the scan, which ends early exactly at a missing partition |
| `FailRecovery.Master.Scan` | internal/client/master_cache.go:1188-1360 | the same for the scan of one record, and what becomes of the record when its writes succeed or fail |
| `FailRecovery.MovesAreSound` | internal/client/master_cache.go:1214-1343 | over every scan each move was made with at least half of the replicas live, to a server that was registered as empty at that turn, is not the failed one and was no replica before the scan, and that is a member at its end |
| `FailRecovery.MovesLeaveTheDomain` | internal/client/master_cache.go:1199-1275 | over every scan of a record the targets have another host, rack or zone than the failed server, as the setting says, when its own is known |
| `FailRecovery.RecoveredIsRid` | internal/client/master_cache.go:1326-1343 | over every scan a recovered partition is one of the record's, counted at most as often, and no longer has the failed server as a member |
| `FailRecovery.TargetsDifferIff` | internal/client/master_cache.go:1237-1290 | the moves of every scan of a record go to different servers if and only if no server can be moved to at two of its turns |
| `FailRecovery.RefreshedIsNotTaken` | internal/ps/schedule_job.go:135-184 | a target whose heartbeat is in before a later turn is not taken again |
| `FailRecovery.OneServerTakesAll` | internal/client/master_cache.go:1282-1290 | at every turn at which only one server is registered as empty and it can be moved to, it is taken |
| `FailRecovery.TwoMovesOneTarget` | internal/master/services/member_service.go:102-197 | so without a heartbeat in between every scan moves both partitions to that server |
| `FailRecovery.NothingLostIff` | internal/client/master_cache.go:1346-1359 | every partition is recovered or still in the record if and only if the record was not deleted and then not put back |
| `FailRecovery.RecordIsTheRest` | internal/client/master_cache.go:1346-1359 | with both store writes done the record is gone exactly if everything was recovered, and else lists exactly the rest |
| `SortByDocid.Partition` | internal/engine/common/common_query_data.h:109-129 | the hole-filling partition splits the row around the pivot and keeps its (docid, distance) pairs |
| `SortByDocid.QuickSort` | internal/engine/common/common_query_data.h:131-138 | terminates, orders its part by docid, permutes its pairs and touches nothing outside |
| `SortByDocid.SortRows` | internal/engine/common/common_query_data.h:108-143 | every row ends in docid order with exactly the pairs it had |
| `MultiGet.MultiGetByKeys` | internal/engine/storage/storage_manager.cc:398-438 | each position gets the value and status of a single Get of its key, for unsorted and repeated keys |
| `InvertedListsIO.WriteInvertedLists` | internal/engine/index/index_io.cc:108-141 | the loops write exactly the specified file |
| `InvertedListsIO.RoundTrip` | internal/engine/index/index_io.cc:108-194 | reading back a written file restores every bucket in a structure of the same shape, and any other shape is refused |
| `InvertedListsIO.HeadLayout` | internal/engine/index/index_io.cc:108-130 | the file begins with "ilar", the number of buckets, the code size, "full" and the number of sizes |
| `InvertedListsIO.SizeIsAt` | internal/engine/index/index_io.cc:118-130 | then come the sizes of all buckets, little-endian |
| `InvertedListsIO.CodesAreAt` | internal/engine/index/index_io.cc:130-137 | then for each bucket the codes of its entries |
| `InvertedListsIO.IdIsAt` | internal/engine/index/index_io.cc:130-137 | and behind them its ids, in the order of the entries |
| `InvertedListsIO.Lists.ReadInvertedLists` | internal/engine/index/index_io.cc:143-194 | a fresh structure ends with the file's buckets, each bucket's deleted entries counted, the id table filled and the indexed count total minus deleted |
| `InvertedListsIO.LoadedTable` | internal/engine/index/index_io.cc:180-189 | when each undeleted id is in one place the table leads it back to its packed bucket and position and maps no other id |
| `InvertedListsIO.SaveAndLoad` | internal/engine/index/index_io.cc:108-194 | written and read back into a fresh structure of the same shape, the lists have the same buckets, the count is all ids minus the deleted ones, and, when each undeleted id is in one place, the table leads it there and no other id anywhere |
| `InvertedListsIO.PackUnpacks` | internal/engine/index/index_io.cc:188-188 | bucket and position can be read back from the packed number |

## Left out

- RocksDB, faiss, roaring, etcd and raft: an ordered key set, an opaque vector store that accepts or rejects, sets, and atomic membership and schema steps.
- Vector training, distances, normalisation and the vector indexes themselves.
- String, string-array, date and floating-point fields of the scalar indexes: the fields modelled are 4- and 8-byte integers.
- Composite index queries (Equal, Range, In, Scan): only the keys, their maintenance and DropAll are modelled.
- SearchLocked and the choice between indexes for several filters.
- Bitmap indexes in the index lifecycle: they are rebuilt unconditionally on load, which is Engines.Engine.RebuildAll.
- Vector indexes in the index lifecycle, and AddVectorFieldIndex.
- Failures of storage calls inside a document write (return codes -6 and -7 among them), except the rejected vector store.
- A raft log replayed after a restart: a restart reads the schema once and continues.
- Two threads joining the same std::thread at once, which C++ leaves undefined.
- HTTP handlers, S3 clients, metrics, authentication, configuration, SDKs.
- Documents.UpsertMeaning: CheckDoc's checks of the vector fields (code -3) are not modelled; a request that fails them is refused like one with an unknown field.
- Documents.RunKeepsInv: storage failures inside a write other than the refused vector store (codes -6 and -7) do not occur.
- Documents.DeleteKeepsInvIff: "_id" is the only string column, so a key that is the storage key of another string column erases nothing; docids are not cut to the 32 bits ToRowKey prints.
- RowKeys.RowKeysApart: docids are not cut to the 32 bits ToRowKey prints, where docids 2^32 apart would share a key.
- Engines.Engine.AddOrUpdate: neither CheckDoc's checks of the vector fields nor the storage failures behind codes -6 and -7 are modelled.
- Engines.Engine.Update: the docid is not cut to the C++ int of the source, which would wrap from 2^31 on.
- Engines.Engine.GetDoc: the docid is not cut to the C++ int of the source, which would wrap from 2^31 on.
- Engines.Engine.Filter: one index and one filter.
- Tables.Table.Add: rows and "_id" strings are stored under the source's text keys, but a row is a sequence of integers, without its packed bytes, and "_id" is the only string column.
- Tables.Table.Update: a row is a sequence of integers, without its packed bytes, and "_id" is the only string column.
- Tables.Table.Delete: "_id" is the only string column, and storage failures do not occur.
- Engines.Engine.Delete: storage failures do not occur.
- DocExport.Export: a document without fields, which would leave the cursor where it is, does not occur.
- IndexLifecycle.RestartSafeIffCovered: says nothing while a build holds the lock, when no write gets through, and about an index that is being built and at the same time listed without a marker, which a clean run excludes (IndexLifecycle.DisciplinedNotInHand).
- IndexLifecycle.ReadyStaysExact: a document write and a scanned document are single steps, and neither a new document with refused vectors nor a delete of another document's storage key occurs; IndexBuild splits the steps for one index.
- IndexLifecycle.NewEngineStaysExact: as IndexLifecycle.ReadyStaysExact.
- IndexBuild.ExactWithoutWindow: one direction; the exact condition is IndexBuild.ReadyIsExactIff.
- IndexProgress.WorkerDrains: without writes in between, which may move the last docid of a build not yet begun.
- IndexBuild.ReadyIsExactIff: documents go by docid; keys, and deletes that erase another document's row, do not occur.
- InvertedListsIO.Lists.ReadInvertedLists: the packed number is bucket * 2^32 + position, which is the source's shift and or for positions below 2^32; memory always suffices, so extending a bucket does not fail, and the id table starts non-empty.
- MergeSearch.MergeReplies: trace parameters and the response head are not modelled.
- MergeSearch.TopNOfAll: scores are reals without NaN, hit counts do not overflow.
- MultiGet.MultiGetByKeys: the order is made by insertion, where the source calls std::sort; any sorted order would do.
- Retry.RoundRobin.Next: the 64-bit counter does not wrap.
- Retry.GetNodeId: a zone named "others" is not told apart from the others; loads stay below 2^32 - 1.
- Retry.SearchFromPartition: no faulty mark expires during a request.
- FailRecovery.Master.Scan: one record; the lock, the time-out test and the loop over records only repeat it. Nobody else changes a membership during the scan.
- FailRecovery.TargetsDifferIff: for records without repeated partitions whose partitions are all found; a scan that ends at a missing partition is one of the record's part before it.
- Ranges.AddedAcceptedIff: the master also refuses new ranges without a name, which makes that part of the condition true there.
