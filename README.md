# EventStoreManager: an encrypted store of telemetry events, one file per event

`EventStoreManager` (Salesforce Mobile SDK, analytics library) keeps
instrumentation events in the app's files directory. Each event is written,
encrypted, to a file named after the event's id followed by the store's
file name suffix. The suffix tells one store's files from those of other
stores sharing the directory when neither suffix ends the other. The store can write one event or a list of
events. It can fetch an event by id or fetch every event of its suffix. It
can delete by id, by a list of ids, or every file of its suffix. Failures
inside its try blocks are caught and logged: the result is then null,
`false`, an unchanged directory, or a truncated file after a failed write.
A null from `listFiles()` (line 212 of `EventStoreManager.java`) is not
caught (see "## Left out").

This project models that store in Dafny:

- `wrappers.dfy`: `Option`, which stands for Java's nullable references.
- `line_reader.dfy`: what the store reads back from a file. It reads the
  file with `BufferedReader.readLine` and re-joins the lines, each followed
  by a line feed. `ReadBack` is that text. It is not the raw file contents:
  "\r\n" and "\r" become "\n", and a final line without a line end gains one.
- `cipher.dfy`: the cipher (`Encryptor`), given to the store as two
  function values. The property the store needs from it is stated as a
  predicate, `RoundTrips`: decrypting `ReadBack(encrypt(x, k))` under key
  `k` gives `x`. The lemmas that need it take it as a precondition. A
  concrete cipher (`EscapeCipher`) shows the predicate can hold. A cipher
  meets it when its decryption copes with what `ReadBack` makes of its
  output, for instance when that output is a single line without line
  breaks, or lines that end in line feeds and hold no carriage return.
- `event_files.dfy`: the directory as a value (file name to contents), and
  one function per operation of the store. Each says what the operation does
  to the directory or what it reads from it. The file filter
  (`EventFileFilter.Accept`) is here.
- `event_store.dfy`: the `EventStoreManager` class. The directory is a
  shared `Directory` object whose `files` map the methods update. Each
  method is proved to behave as the matching function of `event_files.dfy`
  says. The loops of the source (the per-item loops, the listing, the
  read loop) are loops here too.
- `event_store_properties.dfy`: the properties across calls. These are the
  round trip, last write wins, deleting twice, what the batch operations do,
  fetch-all after store-all and after delete-all, and the namespace
  isolation (with its limits).

The file system's behaviour is given to each operation as a parameter:

- how a write ends (`WriteOutcome`): it completes; opening the file fails
  and nothing changes; or a later step fails after opening truncated the
  file, which leaves a prefix of the ciphertext;
- whether reading a file throws (`readFails`, or the set `unreadable`);
- which files `File.delete()` refuses to remove (the set `locked`).

Listing the directory gives its names in an order chosen by the file
system. `GetAllFiles` picks them in an arbitrary order, so no property
depends on the order.

Three consequences of the code are worth stating:

- fetchEvent(File) decrypts the lines of the file re-joined with line
  feeds (`ReadBack`), not the raw file contents.
- The filter only checks how a name ends, so a store with suffix `_u1`
  also owns the files of a store with suffix `_a_u1`
  (`NamespaceCollision`). With an empty suffix a store owns the whole
  directory (`EmptySuffixOwnsEverything`). Stores sharing a directory are
  proved to keep apart only when neither suffix ends the other
  (`Unrelated`).
- An event whose id is empty is stored under the bare suffix. `fetchEvent`
  cannot reach it (`EmptyIdIsStoredButNotFetchable`), but `fetchAllEvents`
  returns it (`EmptyIdIsFetchedByFetchAll`).

## Model

| member | source | states |
|---|---|---|
| LineReader.NextLine | libs/SalesforceAnalytics/src/com/salesforce/androidsdk/analytics/store/EventStoreManager.java:196 | one readLine: the line holds no line break, and the input is the line, then "\n", "\r\n" or "\r" (not followed by "\n"), then the rest; or the whole input is the line |
| LineReader.ReadBack | libs/SalesforceAnalytics/src/com/salesforce/androidsdk/analytics/store/EventStoreManager.java:192-200 | the text handed to decrypt has no carriage return, is empty only for an empty file, and otherwise ends with a line feed |
| LineReader.ReadBackOfTerminated | libs/SalesforceAnalytics/src/com/salesforce/androidsdk/analytics/store/EventStoreManager.java:194-199 | a file with no carriage return whose last character is a line feed is read back unchanged |
| LineReader.ReadBackIdempotent | libs/SalesforceAnalytics/src/com/salesforce/androidsdk/analytics/store/EventStoreManager.java:194-199 | reading back what was read back changes nothing |
| LineReader.ReadBackOfOneLine | libs/SalesforceAnalytics/src/com/salesforce/androidsdk/analytics/store/EventStoreManager.java:194-199 | a single line without a terminator, such as a ciphertext, is read back with a line feed appended |
| Cipher.EscapeCipherRoundTrips | libs/SalesforceAnalytics/src/com/salesforce/androidsdk/analytics/store/EventStoreManager.java:220-226 | the cipher assumption the round trip rests on can be met, by a cipher whose output has no line breaks |
| EventFiles.EventFileFilter.Accept | libs/SalesforceAnalytics/src/com/salesforce/androidsdk/analytics/store/EventStoreManager.java:247-252 | a name is accepted exactly when it is not null and is some id followed by the suffix |
| EventFiles.WriteEvent | libs/SalesforceAnalytics/src/com/salesforce/androidsdk/analytics/store/EventStoreManager.java:82-96 | a null event, an event with empty JSON or a failed open leaves the directory as it was; a completed write sets exactly the file id + suffix to the ciphertext of the JSON, replacing what it held; a failed write leaves that file holding a prefix of the ciphertext; no other file changes |
| EventFiles.WriteEach | libs/SalesforceAnalytics/src/com/salesforce/androidsdk/analytics/store/EventStoreManager.java:103-111 | storing a list never removes a file, and every file it adds belongs to the store's namespace |
| EventFiles.ReadFile | libs/SalesforceAnalytics/src/com/salesforce/androidsdk/analytics/store/EventStoreManager.java:185-208 | fetching a file gives an event exactly when the file exists, reading it does not fail, and decrypting what is read back gives a non-empty text |
| EventFiles.LookupEvent | libs/SalesforceAnalytics/src/com/salesforce/androidsdk/analytics/store/EventStoreManager.java:119-127 | fetching by id gives an event only for a non-null, non-empty id whose file id + suffix exists |
| EventFiles.RemoveEvent | libs/SalesforceAnalytics/src/com/salesforce/androidsdk/analytics/store/EventStoreManager.java:152-160 | deleting answers true exactly when the id is usable and its file exists and is not locked; only that file goes, and contents are unchanged |
| EventFiles.RemoveEach | libs/SalesforceAnalytics/src/com/salesforce/androidsdk/analytics/store/EventStoreManager.java:165-173 | deleting a list of ids only removes files and never changes a file's contents |
| EventFiles.Purge | libs/SalesforceAnalytics/src/com/salesforce/androidsdk/analytics/store/EventStoreManager.java:178-183 | after deleting all events, the store's files left are exactly the locked ones; other files and all contents are untouched |
| EventFiles.Collect | libs/SalesforceAnalytics/src/com/salesforce/androidsdk/analytics/store/EventStoreManager.java:134-144 | fetching all events gives at most one event per listed file |
| EventStore.EventStoreManager.constructor | libs/SalesforceAnalytics/src/com/salesforce/androidsdk/analytics/store/EventStoreManager.java:68-74 | the store keeps its suffix, directory, key and cipher, and its filter uses the suffix |
| EventStore.EventStoreManager.Encrypt | libs/SalesforceAnalytics/src/com/salesforce/androidsdk/analytics/store/EventStoreManager.java:220-222 | under the cipher assumption, what is read back of the ciphertext decrypts to the plaintext |
| EventStore.EventStoreManager.Decrypt | libs/SalesforceAnalytics/src/com/salesforce/androidsdk/analytics/store/EventStoreManager.java:224-226 | under the cipher assumption, decrypting the read-back of a ciphertext of x gives x |
| EventStore.EventStoreManager.StoreEvent | libs/SalesforceAnalytics/src/com/salesforce/androidsdk/analytics/store/EventStoreManager.java:82-96 | the directory afterwards is WriteEvent of the directory before |
| EventStore.EventStoreManager.StoreEvents | libs/SalesforceAnalytics/src/com/salesforce/androidsdk/analytics/store/EventStoreManager.java:103-111 | a null list changes nothing; otherwise the directory afterwards is StoreEvent applied to each element in list order, each with its own outcome |
| EventStore.EventStoreManager.FetchEvent | libs/SalesforceAnalytics/src/com/salesforce/androidsdk/analytics/store/EventStoreManager.java:119-127 | the result is LookupEvent of the current directory |
| EventStore.EventStoreManager.FetchFile | libs/SalesforceAnalytics/src/com/salesforce/androidsdk/analytics/store/EventStoreManager.java:185-208 | the result is ReadFile of the current directory |
| EventStore.EventStoreManager.ReadLines | libs/SalesforceAnalytics/src/com/salesforce/androidsdk/analytics/store/EventStoreManager.java:192-199 | the read loop builds exactly ReadBack of the file's contents |
| EventStore.EventStoreManager.GetAllFiles | libs/SalesforceAnalytics/src/com/salesforce/androidsdk/analytics/store/EventStoreManager.java:210-218 | the result lists every file the filter accepts exactly once, in some order |
| EventStore.EventStoreManager.FetchAllEvents | libs/SalesforceAnalytics/src/com/salesforce/androidsdk/analytics/store/EventStoreManager.java:134-144 | the result is Collect over a listing of the namespace, so it holds at most as many events as the namespace has files |
| EventStore.EventStoreManager.DeleteEvent | libs/SalesforceAnalytics/src/com/salesforce/androidsdk/analytics/store/EventStoreManager.java:152-160 | the directory afterwards and the answer are those of RemoveEvent |
| EventStore.EventStoreManager.DeleteEvents | libs/SalesforceAnalytics/src/com/salesforce/androidsdk/analytics/store/EventStoreManager.java:165-173 | a null list changes nothing; otherwise the directory afterwards is deleteEvent applied to each id in list order |
| EventStore.EventStoreManager.DeleteAllEvents | libs/SalesforceAnalytics/src/com/salesforce/androidsdk/analytics/store/EventStoreManager.java:178-183 | the directory afterwards is Purge of the directory before |
| EventStoreProperties.StoreThenFetch | libs/SalesforceAnalytics/src/com/salesforce/androidsdk/analytics/store/EventStoreManager.java:190-207 | round trip: under the cipher assumption, after a completed store of an event with a non-empty id and JSON, fetching its id gives the event rebuilt from its JSON |
| EventStoreProperties.LastWriteWins | libs/SalesforceAnalytics/src/com/salesforce/androidsdk/analytics/store/EventStoreManager.java:87-91 | a second store of the same id replaces the first one's file, however the first write ended, and fetching then gives the second event |
| EventStoreProperties.EmptyIdIsStoredButNotFetchable | libs/SalesforceAnalytics/src/com/salesforce/androidsdk/analytics/store/EventStoreManager.java:119-124 | an event with an empty id is written to a file of the namespace that fetchEvent cannot reach |
| EventStoreProperties.EmptyIdIsFetchedByFetchAll | libs/SalesforceAnalytics/src/com/salesforce/androidsdk/analytics/store/EventStoreManager.java:134-144 | under the cipher assumption, the event stored under an empty id is among the events fetchAllEvents returns when its file can be read, for any listing order |
| EventStoreProperties.FetchWithoutIdIgnoresDirectory | libs/SalesforceAnalytics/src/com/salesforce/androidsdk/analytics/store/EventStoreManager.java:119-123 | fetching a null or empty id gives null whatever the directory holds |
| EventStoreProperties.ReadDependsOnItsFileOnly | libs/SalesforceAnalytics/src/com/salesforce/androidsdk/analytics/store/EventStoreManager.java:185-207 | what a fetch gives depends on its own file only, so a corrupt file does not affect the others |
| EventStoreProperties.DeleteTwice | libs/SalesforceAnalytics/src/com/salesforce/androidsdk/analytics/store/EventStoreManager.java:152-160 | after a delete that answered true, a second delete of the same id answers false and changes nothing, whatever that call's refusals; with an unusable id or no such file both answer false and change nothing |
| EventStoreProperties.DeleteThenFetch | libs/SalesforceAnalytics/src/com/salesforce/androidsdk/analytics/store/EventStoreManager.java:152-160 | after a delete that answered true, fetching the id gives null |
| EventStoreProperties.RemoveEachRemovesTargets | libs/SalesforceAnalytics/src/com/salesforce/androidsdk/analytics/store/EventStoreManager.java:165-173 | deleting a list removes exactly the unlocked files of its non-null, non-empty ids and keeps every other file |
| EventStoreProperties.WriteEachStoresEveryEvent | libs/SalesforceAnalytics/src/com/salesforce/androidsdk/analytics/store/EventStoreManager.java:103-111 | storing a list of valid events with distinct ids, all writes completing, adds exactly their files, each with its own ciphertext, and keeps every other file |
| EventStoreProperties.FileNameInjective | libs/SalesforceAnalytics/src/com/salesforce/androidsdk/analytics/store/EventStoreManager.java:87 | different ids give different file names |
| EventStoreProperties.ListingSize | libs/SalesforceAnalytics/src/com/salesforce/androidsdk/analytics/store/EventStoreManager.java:210-218 | a listing has as many names as the namespace has files |
| EventStoreProperties.FetchAllBounded | libs/SalesforceAnalytics/src/com/salesforce/androidsdk/analytics/store/EventStoreManager.java:134-144 | fetching all events gives at most as many events as the namespace has files |
| EventStoreProperties.CollectMembers | libs/SalesforceAnalytics/src/com/salesforce/androidsdk/analytics/store/EventStoreManager.java:137-142 | an event is in the fetched list exactly when some listed file reads back as it; files that give null are dropped |
| EventStoreProperties.CollectKeepsAll | libs/SalesforceAnalytics/src/com/salesforce/androidsdk/analytics/store/EventStoreManager.java:137-142 | when every listed file gives an event, none is dropped |
| EventStoreProperties.BatchNamespace | libs/SalesforceAnalytics/src/com/salesforce/androidsdk/analytics/store/EventStoreManager.java:210-218 | after such a list is stored over a directory holding none of the store's files, the store's files are exactly those of the list |
| EventStoreProperties.BatchReadsBack | libs/SalesforceAnalytics/src/com/salesforce/androidsdk/analytics/store/EventStoreManager.java:190-207 | under the cipher assumption each file of such a list reads back as its event |
| EventStoreProperties.BulkConsistency | libs/SalesforceAnalytics/src/com/salesforce/androidsdk/analytics/store/EventStoreManager.java:103-144 | store-all then fetch-all from an empty namespace gives one event per stored event, each rebuilt from that event's JSON, in any order |
| EventStoreProperties.PurgeEmptiesNamespace | libs/SalesforceAnalytics/src/com/salesforce/androidsdk/analytics/store/EventStoreManager.java:178-183 | when none of the store's files is locked, after deleting all events the namespace is empty and fetch-all gives nothing |
| EventStoreProperties.NamespacesDisjoint | libs/SalesforceAnalytics/src/com/salesforce/androidsdk/analytics/store/EventStoreManager.java:247-252 | stores whose suffixes do not end one another own no file in common |
| EventStoreProperties.WriteKeepsOtherNamespace | libs/SalesforceAnalytics/src/com/salesforce/androidsdk/analytics/store/EventStoreManager.java:87-91 | a store's write leaves the files of a store with an unrelated suffix untouched |
| EventStoreProperties.PurgeKeepsOtherNamespace | libs/SalesforceAnalytics/src/com/salesforce/androidsdk/analytics/store/EventStoreManager.java:178-183 | a store's delete-all leaves the files of a store with an unrelated suffix untouched |
| EventStoreProperties.NamespaceCollision | libs/SalesforceAnalytics/src/com/salesforce/androidsdk/analytics/store/EventStoreManager.java:248 | the filter with suffix "_u1" accepts a file of a store with suffix "_a_u1" |
| EventStoreProperties.EmptySuffixOwnsEverything | libs/SalesforceAnalytics/src/com/salesforce/androidsdk/analytics/store/EventStoreManager.java:248 | with an empty suffix every file of the directory belongs to the store |

## Left out

- Android plumbing: `Context.openFileOutput`, `FileOutputStream`, `FileReader` and `Log` are not modelled. The directory is a map from name to contents. What the file system does is a parameter of each operation. Logging has no effect.
- The cipher's code (`Encryptor`) is not part of this model. It is a pair of function values, and the round trip is an assumption (`RoundTrips`) that the lemmas needing it require.
- InstrumentationEvent is not part of this model. Its JSON form is an opaque string, and the `InstrumentationEvent(String)` constructor is a function value (`parse`) that cannot fail.
- A null event id is not modelled (Java would store it under "null" + suffix). Ids are strings. A null `toJson()` counts as empty, as `TextUtils.isEmpty` treats it.
- Character encoding (`getBytes()` and the reader's charset) is not modelled. File contents are characters, and `WriteFailed(kept)` counts characters, not bytes.
- `rootDir.listFiles()` returning null is not modelled: the directory always exists. In the code that null is not caught, so its NullPointerException would escape `fetchAllEvents` and `deleteAllEvents`. The null checks on `File` objects are left out, because the names listed are never null.
- Ids or suffixes holding a path separator are outside this flat model. `openFileOutput` rejects such names when writing, while `new File(rootDir, ...)` in fetchEvent and deleteEvent would resolve them into a subdirectory. Here every name is a key of one flat map.
- Concurrency is not modelled: other stores or threads changing the directory between listing and reading.
- EventStore.EventStoreManager.FetchAllEvents: the listing order appears only as a ghost result. The order of the returned events is stated relative to that listing, not to any fixed order.
