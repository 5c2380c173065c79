/**
 * EventStoreManager: stores telemetry events as encrypted files, one file per
 * event, in a directory it may share with other stores. The file of an event
 * is named after its id followed by the store's suffix, and the suffix is what
 * tells one store's files from another's.
 *
 * What the file system does is outside the store's control; each operation
 * takes the part of it that matters as a parameter: how a write ends, which
 * files cannot be read, which files cannot be removed.
 */
module EventStore {
  import opened Wrappers
  import opened LineReader
  import opened Cipher
  import opened EventFiles
  import EventStoreProperties

  /** The directory the store keeps its files in (Context.getFilesDir()). */
  class Directory {
    var files: Dir

    constructor (files: Dir)
      ensures this.files == files
    {
      this.files := files;
    }
  }

  class EventStoreManager {
    const filenameSuffix: string
    const rootDir: Directory
    const fileFilter: EventFileFilter := EventFileFilter(filenameSuffix)
    const encryptionKey: string
    const crypto: Crypto
    /** The InstrumentationEvent(String) constructor. */
    const parse: string -> Event

    constructor (filenameSuffix: string, rootDir: Directory, encryptionKey: string,
                 crypto: Crypto, parse: string -> Event)
      ensures this.filenameSuffix == filenameSuffix && this.rootDir == rootDir
      ensures this.encryptionKey == encryptionKey
      ensures this.crypto == crypto && this.parse == parse
    {
      this.filenameSuffix := filenameSuffix;
      this.rootDir := rootDir;
      this.encryptionKey := encryptionKey;
      this.crypto := crypto;
      this.parse := parse;
    }

    /** The store's configuration as a value, for the functions of EventFiles. */
    function Cfg(): Config {
      Config(filenameSuffix, encryptionKey, crypto, parse)
    }

    function Encrypt(data: string): (r: string)
      ensures RoundTrips(crypto) ==> Decrypt(ReadBack(r)) == Some(data)
    {
      crypto.encrypt(data, encryptionKey)
    }

    function Decrypt(data: string): (r: Option<string>)
      ensures RoundTrips(crypto) ==>
        forall x :: data == ReadBack(crypto.encrypt(x, encryptionKey)) ==> r == Some(x)
    {
      crypto.decrypt(data, encryptionKey)
    }

    method StoreEvent(event: Option<Event>, outcome: WriteOutcome)
      modifies rootDir
      ensures rootDir.files == WriteEvent(Cfg(), old(rootDir.files), event, outcome)
    {
      if event.None? || event.value.json == "" {
        return;
      }
      var filename := event.value.eventId + filenameSuffix;
      match outcome {
        case Completed =>
          rootDir.files := rootDir.files[filename := Encrypt(event.value.json)];
        case OpenFailed =>
        case WriteFailed(kept) =>
          rootDir.files := rootDir.files[filename := Truncate(Encrypt(event.value.json), kept)];
      }
    }

    method StoreEvents(events: Option<seq<Option<Event>>>, outcome: nat -> WriteOutcome)
      modifies rootDir
      ensures events.None? ==> rootDir.files == old(rootDir.files)
      ensures events.Some? ==> rootDir.files == WriteEach(Cfg(), old(rootDir.files), events.value, outcome)
    {
      if events.None? || |events.value| == 0 {
        return;
      }
      var list := events.value;
      for i := 0 to |list|
        invariant rootDir.files == WriteEach(Cfg(), old(rootDir.files), list[..i], outcome)
      {
        StoreEvent(list[i], outcome(i));
        assert list[..i + 1][..i] == list[..i];
      }
      assert list[..|list|] == list;
    }

    method FetchEvent(eventId: Option<string>, readFails: bool) returns (event: Option<Event>)
      ensures event == LookupEvent(Cfg(), rootDir.files, eventId, readFails)
    {
      if eventId.None? || eventId.value == "" {
        return None;
      }
      var filename := eventId.value + filenameSuffix;
      event := FetchFile(filename, readFails);
    }

    /**
     * fetchEvent(File): readFails says the file system throws while the file
     * is opened or read, in which case nothing is decrypted.
     */
    method FetchFile(file: string, readFails: bool) returns (event: Option<Event>)
      ensures event == ReadFile(Cfg(), rootDir.files, file, readFails)
    {
      if file !in rootDir.files {
        return None;
      }
      var eventString: Option<string> := None;
      if !readFails {
        var json := ReadLines(rootDir.files[file]);
        eventString := Decrypt(json);
      }
      if eventString.Some? && eventString.value != "" {
        event := Some(parse(eventString.value));
      } else {
        event := None;
      }
    }

    /** The read loop of fetchEvent(File): every line of contents, each followed by a line feed. */
    static method ReadLines(contents: string) returns (json: string)
      ensures json == ReadBack(contents)
    {
      json := "";
      var unread := contents;
      while unread != []
        invariant json + ReadBack(unread) == ReadBack(contents)
        decreases |unread|
      {
        var next := NextLine(unread);
        ReadBackStep(json, unread);
        json := json + (next.0 + "\n");
        unread := next.1;
      }
    }

    /** The files of the directory the filter accepts, in the order the listing gives them. */
    method GetAllFiles() returns (files: seq<string>)
      ensures IsListing(Cfg(), rootDir.files, files)
    {
      files := [];
      var unlisted := rootDir.files.Keys;
      while unlisted != {}
        invariant unlisted <= rootDir.files.Keys
        invariant forall i, j :: 0 <= i < j < |files| ==> files[i] != files[j]
        invariant forall n :: n in files <==>
          n in rootDir.files && n !in unlisted && fileFilter.Accept(Some(n))
        decreases unlisted
      {
        var file :| file in unlisted;
        if fileFilter.Accept(Some(file)) {
          files := files + [file];
        }
        unlisted := unlisted - {file};
      }
    }

    /**
     * fetchAllEvents(): the events of the files of the namespace that can be
     * read and decrypted; listing is the order the directory listing gave.
     */
    method FetchAllEvents(unreadable: set<string>) returns (events: seq<Event>, ghost listing: seq<string>)
      ensures IsListing(Cfg(), rootDir.files, listing)
      ensures events == Collect(Cfg(), rootDir.files, listing, unreadable)
      ensures |events| <= |Namespace(Cfg(), rootDir.files)|
    {
      var files := GetAllFiles();
      events := [];
      for i := 0 to |files|
        invariant events == Collect(Cfg(), rootDir.files, files[..i], unreadable)
      {
        var event := FetchFile(files[i], files[i] in unreadable);
        assert files[..i + 1][..i] == files[..i];
        if event.Some? {
          events := events + [event.value];
        }
      }
      assert files[..|files|] == files;
      listing := files;
      EventStoreProperties.FetchAllBounded(Cfg(), rootDir.files, listing, unreadable);
    }

    method DeleteEvent(eventId: Option<string>, locked: set<string>) returns (deleted: bool)
      modifies rootDir
      ensures (rootDir.files, deleted) == RemoveEvent(Cfg(), old(rootDir.files), eventId, locked)
    {
      if eventId.None? || eventId.value == "" {
        return false;
      }
      var filename := eventId.value + filenameSuffix;
      deleted := filename in rootDir.files && filename !in locked;
      if deleted {
        rootDir.files := rootDir.files - {filename};
      }
    }

    method DeleteEvents(eventIds: Option<seq<Option<string>>>, locked: set<string>)
      modifies rootDir
      ensures eventIds.None? ==> rootDir.files == old(rootDir.files)
      ensures eventIds.Some? ==> rootDir.files == RemoveEach(Cfg(), old(rootDir.files), eventIds.value, locked)
    {
      if eventIds.None? || |eventIds.value| == 0 {
        return;
      }
      var ids := eventIds.value;
      for i := 0 to |ids|
        invariant rootDir.files == RemoveEach(Cfg(), old(rootDir.files), ids[..i], locked)
      {
        var _ := DeleteEvent(ids[i], locked);
        assert ids[..i + 1][..i] == ids[..i];
      }
      assert ids[..|ids|] == ids;
    }

    method DeleteAllEvents(locked: set<string>)
      modifies rootDir
      ensures rootDir.files == Purge(Cfg(), old(rootDir.files), locked)
    {
      var files := GetAllFiles();
      for i := 0 to |files|
        invariant rootDir.files ==
          map n | n in old(rootDir.files) && !(n in files[..i] && n !in locked) :: old(rootDir.files)[n]
      {
        if files[i] !in locked {
          rootDir.files := rootDir.files - {files[i]};
        }
        assert files[..i + 1] == files[..i] + [files[i]];
      }
      assert files[..|files|] == files;
    }
  }
}
