/**
 * What the store promises across calls, stated on the functions of
 * EventFiles that the EventStoreManager methods are proved to follow.
 */
module EventStoreProperties {
  import opened Wrappers
  import opened Cipher
  import opened EventFiles

  // ---- Writing and reading one event

  /**
   * Round trip: once storeEvent(e) has written its file, fetchEvent(e's id)
   * gives the event rebuilt from e's JSON, whatever the directory held before.
   */
  lemma StoreThenFetch(cfg: Config, dir: Dir, e: Event)
    requires RoundTrips(cfg.crypto)
    requires e.eventId != "" && e.json != ""
    ensures LookupEvent(cfg, WriteEvent(cfg, dir, Some(e), Completed), Some(e.eventId), false)
            == Some(cfg.parse(e.json))
  {
    var name := cfg.FileName(e.eventId);
    var d := WriteEvent(cfg, dir, Some(e), Completed);
    assert d[name] == cfg.crypto.encrypt(e.json, cfg.key);
  }

  /**
   * Last write wins: storing a second event with the same id replaces the
   * first one's file, and fetching the id then gives the second event.
   */
  lemma LastWriteWins(cfg: Config, dir: Dir, first: Event, second: Event, outcome: WriteOutcome)
    requires RoundTrips(cfg.crypto)
    requires second.eventId == first.eventId && second.eventId != "" && second.json != ""
    ensures WriteEvent(cfg, WriteEvent(cfg, dir, Some(first), outcome), Some(second), Completed)
            == WriteEvent(cfg, dir, Some(second), Completed)
    ensures LookupEvent(cfg, WriteEvent(cfg, WriteEvent(cfg, dir, Some(first), outcome), Some(second), Completed),
                        Some(second.eventId), false)
            == Some(cfg.parse(second.json))
  {
    StoreThenFetch(cfg, dir, second);
  }

  /**
   * An event with an empty id is written to the file named after the suffix
   * alone: fetchEvent cannot reach it, yet it is one of the store's files.
   */
  lemma EmptyIdIsStoredButNotFetchable(cfg: Config, dir: Dir, e: Event, readFails: bool)
    requires e.eventId == "" && e.json != ""
    ensures cfg.suffix in Namespace(cfg, WriteEvent(cfg, dir, Some(e), Completed))
    ensures LookupEvent(cfg, WriteEvent(cfg, dir, Some(e), Completed), Some(e.eventId), readFails) == None
  {
    assert cfg.FileName(e.eventId) == "" + cfg.suffix == cfg.suffix;
  }

  /**
   * The event stored under an empty id is still one that fetchAllEvents
   * returns, when its file can be read and the cipher works.
   */
  lemma EmptyIdIsFetchedByFetchAll(cfg: Config, dir: Dir, e: Event, names: seq<string>, unreadable: set<string>)
    requires RoundTrips(cfg.crypto)
    requires e.eventId == "" && e.json != ""
    requires IsListing(cfg, WriteEvent(cfg, dir, Some(e), Completed), names)
    requires cfg.suffix !in unreadable
    ensures cfg.parse(e.json) in Collect(cfg, WriteEvent(cfg, dir, Some(e), Completed), names, unreadable)
  {
    var d := WriteEvent(cfg, dir, Some(e), Completed);
    EmptyIdIsStoredButNotFetchable(cfg, dir, e, false);
    assert cfg.suffix in names;
    var i :| 0 <= i < |names| && names[i] == cfg.suffix;
    assert d[cfg.suffix] == cfg.crypto.encrypt(e.json, cfg.key);
    assert ReadFile(cfg, d, names[i], names[i] in unreadable) == Some(cfg.parse(e.json));
    CollectMembers(cfg, d, names, unreadable, cfg.parse(e.json));
  }

  /** fetchEvent with a null or empty id gives null without looking at the directory. */
  lemma FetchWithoutIdIgnoresDirectory(cfg: Config, d1: Dir, d2: Dir, eventId: Option<string>, f1: bool, f2: bool)
    requires !UsableId(eventId)
    ensures LookupEvent(cfg, d1, eventId, f1) == LookupEvent(cfg, d2, eventId, f2) == None
  {
  }

  /**
   * A file that cannot be read or decrypted gives null, and what happens to
   * it does not change what any other file gives.
   */
  lemma ReadDependsOnItsFileOnly(cfg: Config, d1: Dir, d2: Dir, name: string, readFails: bool)
    requires name in d1 <==> name in d2
    requires name in d1 ==> d1[name] == d2[name]
    ensures ReadFile(cfg, d1, name, readFails) == ReadFile(cfg, d2, name, readFails)
  {
  }

  // ---- Deleting

  /**
   * deleteEvent twice in a row, each call facing its own refusals: once the
   * first call has removed the file, the second finds nothing to remove,
   * answers false and leaves the directory as it is. With an unusable id or
   * no such file, both calls answer false and change nothing.
   */
  lemma DeleteTwice(cfg: Config, dir: Dir, eventId: Option<string>, locked1: set<string>, locked2: set<string>)
    ensures var (d1, ok1) := RemoveEvent(cfg, dir, eventId, locked1);
            var (d2, ok2) := RemoveEvent(cfg, d1, eventId, locked2);
            (ok1 ==> !ok2 && d2 == d1)
            && (!UsableId(eventId) || cfg.FileName(eventId.value) !in dir ==> !ok1 && !ok2 && d2 == dir)
  {
  }

  /** After a successful deleteEvent, fetchEvent of the same id gives null. */
  lemma DeleteThenFetch(cfg: Config, dir: Dir, eventId: Option<string>, locked: set<string>, readFails: bool)
    requires RemoveEvent(cfg, dir, eventId, locked).1
    ensures LookupEvent(cfg, RemoveEvent(cfg, dir, eventId, locked).0, eventId, readFails) == None
  {
  }

  /** The files deleteEvents aims at: those of its usable ids. */
  ghost function Targets(cfg: Config, eventIds: seq<Option<string>>): set<string> {
    set i | 0 <= i < |eventIds| && UsableId(eventIds[i]) :: cfg.FileName(eventIds[i].value)
  }

  /**
   * deleteEvents removes exactly the files of its usable ids that the file
   * system lets it remove, and leaves every other file as it was.
   */
  lemma {:induction false} RemoveEachRemovesTargets(cfg: Config, dir: Dir, eventIds: seq<Option<string>>, locked: set<string>)
    ensures RemoveEach(cfg, dir, eventIds, locked)
            == map n | n in dir && !(n in Targets(cfg, eventIds) && n !in locked) :: dir[n]
  {
    if eventIds != [] {
      var k := |eventIds| - 1;
      RemoveEachRemovesTargets(cfg, dir, eventIds[..k], locked);
      var before := Targets(cfg, eventIds[..k]);
      var after := Targets(cfg, eventIds);
      assert after == before + (if UsableId(eventIds[k]) then {cfg.FileName(eventIds[k].value)} else {}) by {
        forall n | n in after ensures n in before || (UsableId(eventIds[k]) && n == cfg.FileName(eventIds[k].value)) {
          var i :| 0 <= i < |eventIds| && UsableId(eventIds[i]) && n == cfg.FileName(eventIds[i].value);
          if i < k {
            assert eventIds[..k][i] == eventIds[i];
          }
        }
        forall n | n in before ensures n in after {
          var i :| 0 <= i < k && UsableId(eventIds[..k][i]) && n == cfg.FileName(eventIds[..k][i].value);
          assert eventIds[..k][i] == eventIds[i];
        }
      }
    }
  }

  // ---- Writing a list of events

  /** The file names of a list of events, in list order. */
  function FileNames(cfg: Config, events: seq<Option<Event>>): (names: seq<string>)
    requires forall i :: 0 <= i < |events| ==> events[i].Some?
    ensures |names| == |events|
    ensures forall i :: 0 <= i < |events| ==> names[i] == cfg.FileName(events[i].value.eventId)
  {
    seq(|events|, i requires 0 <= i < |events| => cfg.FileName(events[i].value.eventId))
  }

  /** Every event storable, every write completed, no id twice. */
  ghost predicate CleanBatch(events: seq<Option<Event>>, outcome: nat -> WriteOutcome) {
    && (forall i :: 0 <= i < |events| ==> Storable(events[i]) && outcome(i) == Completed)
    && (forall i, j :: 0 <= i < j < |events| ==> events[i].value.eventId != events[j].value.eventId)
  }

  /** The last write of a clean batch sets its file to its ciphertext. */
  lemma WriteEachLast(cfg: Config, dir: Dir, events: seq<Option<Event>>, outcome: nat -> WriteOutcome)
    requires events != [] && CleanBatch(events, outcome)
    ensures var k := |events| - 1;
      && CleanBatch(events[..k], outcome)
      && FileNames(cfg, events[..k]) == FileNames(cfg, events)[..k]
      && WriteEach(cfg, dir, events, outcome)
         == WriteEach(cfg, dir, events[..k], outcome)[cfg.FileName(events[k].value.eventId)
              := cfg.crypto.encrypt(events[k].value.json, cfg.key)]
  {
    var k := |events| - 1;
    assert forall i :: 0 <= i < k ==> events[..k][i] == events[i];
  }

  /** A clean batch adds exactly the files of its events. */
  lemma {:induction false} WriteEachFiles(cfg: Config, dir: Dir, events: seq<Option<Event>>, outcome: nat -> WriteOutcome)
    requires CleanBatch(events, outcome)
    ensures forall n :: n in WriteEach(cfg, dir, events, outcome) <==> n in dir || n in FileNames(cfg, events)
  {
    if events != [] {
      var k := |events| - 1;
      WriteEachLast(cfg, dir, events, outcome);
      WriteEachFiles(cfg, dir, events[..k], outcome);
      var names := FileNames(cfg, events);
      assert names == names[..k] + [names[k]];
    }
  }

  /** In a clean batch, each event's file ends up holding that event's ciphertext. */
  lemma {:induction false} WriteEachContents(cfg: Config, dir: Dir, events: seq<Option<Event>>, outcome: nat -> WriteOutcome, i: nat)
    requires CleanBatch(events, outcome) && i < |events|
    ensures cfg.FileName(events[i].value.eventId) in WriteEach(cfg, dir, events, outcome)
    ensures WriteEach(cfg, dir, events, outcome)[cfg.FileName(events[i].value.eventId)]
            == cfg.crypto.encrypt(events[i].value.json, cfg.key)
  {
    var k := |events| - 1;
    WriteEachLast(cfg, dir, events, outcome);
    if i < k {
      assert events[..k][i] == events[i];
      WriteEachContents(cfg, dir, events[..k], outcome, i);
      if cfg.FileName(events[i].value.eventId) == cfg.FileName(events[k].value.eventId) {
        FileNameInjective(cfg, events[i].value.eventId, events[k].value.eventId);
      }
    }
  }

  /** A clean batch leaves every file that is not one of its events' as it was. */
  lemma {:induction false} WriteEachKeeps(cfg: Config, dir: Dir, events: seq<Option<Event>>, outcome: nat -> WriteOutcome, n: string)
    requires CleanBatch(events, outcome)
    requires n in dir && n !in FileNames(cfg, events)
    ensures n in WriteEach(cfg, dir, events, outcome) && WriteEach(cfg, dir, events, outcome)[n] == dir[n]
  {
    if events != [] {
      var k := |events| - 1;
      WriteEachLast(cfg, dir, events, outcome);
      assert FileNames(cfg, events)[k] == cfg.FileName(events[k].value.eventId);
      WriteEachKeeps(cfg, dir, events[..k], outcome, n);
    }
  }

  /**
   * storeEvents over a clean batch: the directory gains exactly one file per
   * event, holding that event's ciphertext, and keeps every other file.
   */
  lemma WriteEachStoresEveryEvent(cfg: Config, dir: Dir, events: seq<Option<Event>>, outcome: nat -> WriteOutcome)
    requires CleanBatch(events, outcome)
    ensures forall n :: n in WriteEach(cfg, dir, events, outcome) <==> n in dir || n in FileNames(cfg, events)
    ensures forall i :: 0 <= i < |events| ==>
      WriteEach(cfg, dir, events, outcome)[FileNames(cfg, events)[i]]
        == cfg.crypto.encrypt(events[i].value.json, cfg.key)
    ensures forall n :: n in dir && n !in FileNames(cfg, events) ==> WriteEach(cfg, dir, events, outcome)[n] == dir[n]
  {
    WriteEachFiles(cfg, dir, events, outcome);
    forall i | 0 <= i < |events|
      ensures WriteEach(cfg, dir, events, outcome)[FileNames(cfg, events)[i]]
              == cfg.crypto.encrypt(events[i].value.json, cfg.key)
    {
      WriteEachContents(cfg, dir, events, outcome, i);
    }
    forall n | n in dir && n !in FileNames(cfg, events)
      ensures WriteEach(cfg, dir, events, outcome)[n] == dir[n]
    {
      WriteEachKeeps(cfg, dir, events, outcome, n);
    }
  }

  /** Different ids give different file names. */
  lemma FileNameInjective(cfg: Config, a: string, b: string)
    requires cfg.FileName(a) == cfg.FileName(b)
    ensures a == b
  {
    assert a == cfg.FileName(a)[..|a|];
  }

  // ---- Listing and fetching all events

  /** A list without repeats has as many elements as the set of them. */
  lemma {:induction false} DistinctCount(names: seq<string>)
    requires forall i, j :: 0 <= i < j < |names| ==> names[i] != names[j]
    ensures |set n | n in names| == |names|
  {
    if names != [] {
      var tail := names[1..];
      DistinctCount(tail);
      assert (set n | n in names) == {names[0]} + (set n | n in tail);
      assert names[0] !in tail;
    }
  }

  /** A listing names as many files as the namespace holds. */
  lemma ListingSize(cfg: Config, dir: Dir, names: seq<string>)
    requires IsListing(cfg, dir, names)
    ensures |names| == |Namespace(cfg, dir)|
  {
    DistinctCount(names);
    assert (set n | n in names) == Namespace(cfg, dir);
  }

  /** fetchAllEvents returns at most one event per file of the namespace. */
  lemma FetchAllBounded(cfg: Config, dir: Dir, names: seq<string>, unreadable: set<string>)
    requires IsListing(cfg, dir, names)
    ensures |Collect(cfg, dir, names, unreadable)| <= |Namespace(cfg, dir)|
  {
    ListingSize(cfg, dir, names);
  }

  /**
   * fetchAllEvents keeps exactly the events of the listed files that could
   * be read, and drops the files that gave null.
   */
  lemma {:induction false} CollectMembers(cfg: Config, dir: Dir, names: seq<string>, unreadable: set<string>, event: Event)
    ensures event in Collect(cfg, dir, names, unreadable) <==>
      exists i :: 0 <= i < |names| && ReadFile(cfg, dir, names[i], names[i] in unreadable) == Some(event)
  {
    if names != [] {
      var k := |names| - 1;
      var prefix := names[..k];
      CollectMembers(cfg, dir, prefix, unreadable, event);
      assert forall i :: 0 <= i < k ==> prefix[i] == names[i];
    }
  }

  /** When every listed file gives an event, fetchAllEvents drops none. */
  lemma {:induction false} CollectKeepsAll(cfg: Config, dir: Dir, names: seq<string>, unreadable: set<string>)
    requires forall i :: 0 <= i < |names| ==> ReadFile(cfg, dir, names[i], names[i] in unreadable).Some?
    ensures |Collect(cfg, dir, names, unreadable)| == |names|
  {
    if names != [] {
      var k := |names| - 1;
      assert forall i :: 0 <= i < k ==> names[..k][i] == names[i];
      CollectKeepsAll(cfg, dir, names[..k], unreadable);
    }
  }

  /**
   * After a clean batch written over a directory with none of the store's
   * files, the store's files are exactly those of the batch.
   */
  lemma BatchNamespace(cfg: Config, dir: Dir, events: seq<Option<Event>>, outcome: nat -> WriteOutcome)
    requires CleanBatch(events, outcome)
    requires Namespace(cfg, dir) == {}
    ensures forall n :: n in Namespace(cfg, WriteEach(cfg, dir, events, outcome)) <==> n in FileNames(cfg, events)
  {
    var fileNames := FileNames(cfg, events);
    WriteEachStoresEveryEvent(cfg, dir, events, outcome);
    var d := WriteEach(cfg, dir, events, outcome);
    forall n ensures n in Namespace(cfg, d) <==> n in fileNames {
      if n in fileNames {
        var i :| 0 <= i < |events| && fileNames[i] == n;
        assert events[i].value.eventId + cfg.suffix == n;
      }
      if n in Namespace(cfg, d) {
        assert n in dir ==> n in Namespace(cfg, dir);
      }
    }
  }

  /** Under the cipher assumption each file of a clean batch reads back as its event. */
  lemma BatchReadsBack(cfg: Config, dir: Dir, events: seq<Option<Event>>, outcome: nat -> WriteOutcome, i: nat)
    requires RoundTrips(cfg.crypto)
    requires CleanBatch(events, outcome)
    requires i < |events|
    ensures ReadFile(cfg, WriteEach(cfg, dir, events, outcome), FileNames(cfg, events)[i], false)
            == Some(cfg.parse(events[i].value.json))
  {
    WriteEachStoresEveryEvent(cfg, dir, events, outcome);
    var d := WriteEach(cfg, dir, events, outcome);
    assert FileNames(cfg, events)[i] in d;
  }

  /** A listing of the store's files after a clean batch names each of the batch's files once. */
  lemma BatchListing(cfg: Config, dir: Dir, events: seq<Option<Event>>, outcome: nat -> WriteOutcome, names: seq<string>)
    requires CleanBatch(events, outcome)
    requires Namespace(cfg, dir) == {}
    requires IsListing(cfg, WriteEach(cfg, dir, events, outcome), names)
    ensures |names| == |events|
    ensures forall n :: n in names <==> n in FileNames(cfg, events)
  {
    var fileNames := FileNames(cfg, events);
    BatchNamespace(cfg, dir, events, outcome);
    forall i, j | 0 <= i < j < |fileNames| ensures fileNames[i] != fileNames[j] {
      if fileNames[i] == fileNames[j] {
        FileNameInjective(cfg, events[i].value.eventId, events[j].value.eventId);
      }
    }
    DistinctCount(fileNames);
    DistinctCount(names);
    assert (set n | n in names) == (set n | n in fileNames);
  }

  /**
   * storeEvents followed by fetchAllEvents: starting from a directory with
   * none of the store's files, a clean batch comes back as one event per
   * stored event, each rebuilt from that event's JSON, in whatever order
   * the listing gives.
   */
  lemma BulkConsistency(cfg: Config, dir: Dir, events: seq<Option<Event>>, outcome: nat -> WriteOutcome,
                        names: seq<string>, event: Event)
    requires RoundTrips(cfg.crypto)
    requires CleanBatch(events, outcome)
    requires Namespace(cfg, dir) == {}
    requires IsListing(cfg, WriteEach(cfg, dir, events, outcome), names)
    ensures |Collect(cfg, WriteEach(cfg, dir, events, outcome), names, {})| == |events|
    ensures event in Collect(cfg, WriteEach(cfg, dir, events, outcome), names, {}) <==>
      exists i :: 0 <= i < |events| && event == cfg.parse(events[i].value.json)
  {
    var d := WriteEach(cfg, dir, events, outcome);
    var fileNames := FileNames(cfg, events);
    BatchListing(cfg, dir, events, outcome, names);
    // every listed file is the file of one event, and reads back as it
    forall i | 0 <= i < |names|
      ensures exists j :: 0 <= j < |events| && names[i] == fileNames[j]
                && ReadFile(cfg, d, names[i], names[i] in {}) == Some(cfg.parse(events[j].value.json))
    {
      assert names[i] in fileNames;
      var j :| 0 <= j < |events| && fileNames[j] == names[i];
      BatchReadsBack(cfg, dir, events, outcome, j);
    }
    CollectKeepsAll(cfg, d, names, {});
    CollectMembers(cfg, d, names, {}, event);
    if exists j :: 0 <= j < |events| && event == cfg.parse(events[j].value.json) {
      var j :| 0 <= j < |events| && event == cfg.parse(events[j].value.json);
      assert fileNames[j] in names;
      var i :| 0 <= i < |names| && names[i] == fileNames[j];
      BatchReadsBack(cfg, dir, events, outcome, j);
    }
  }

  // ---- Purging the namespace

  /**
   * deleteAllEvents, when the file system lets it remove the store's files,
   * leaves fetchAllEvents nothing to return.
   */
  lemma PurgeEmptiesNamespace(cfg: Config, dir: Dir, locked: set<string>, names: seq<string>, unreadable: set<string>)
    requires Namespace(cfg, dir) * locked == {}
    requires IsListing(cfg, Purge(cfg, dir, locked), names)
    ensures Namespace(cfg, Purge(cfg, dir, locked)) == {}
    ensures Collect(cfg, Purge(cfg, dir, locked), names, unreadable) == []
  {
    ListingSize(cfg, Purge(cfg, dir, locked), names);
  }

  // ---- Sharing one directory between stores

  /** Neither suffix ends the other: the condition under which two stores keep apart. */
  predicate Unrelated(s1: string, s2: string) {
    !EndsWith(s1, s2) && !EndsWith(s2, s1)
  }

  /** Two suffixes that both end one name end each other. */
  lemma SuffixesNest(name: string, s1: string, s2: string)
    requires EndsWith(name, s1) && EndsWith(name, s2)
    ensures EndsWith(s1, s2) || EndsWith(s2, s1)
  {
    if |s2| <= |s1| {
      assert s1[|s1| - |s2|..] == name[|name| - |s2|..];
    } else {
      assert s2[|s2| - |s1|..] == name[|name| - |s1|..];
    }
  }

  /** Stores whose suffixes are unrelated own no file in common. */
  lemma NamespacesDisjoint(c1: Config, c2: Config, dir: Dir)
    requires Unrelated(c1.suffix, c2.suffix)
    ensures Namespace(c1, dir) * Namespace(c2, dir) == {}
  {
    forall n | n in Namespace(c1, dir) && n in Namespace(c2, dir) ensures false {
      SuffixesNest(n, c1.suffix, c2.suffix);
    }
  }

  /** A store's write does not touch a store of an unrelated suffix. */
  lemma WriteKeepsOtherNamespace(c1: Config, c2: Config, dir: Dir, event: Option<Event>, outcome: WriteOutcome)
    requires Unrelated(c1.suffix, c2.suffix)
    ensures var d := WriteEvent(c1, dir, event, outcome);
      forall n :: c2.Filter().Accept(Some(n)) ==> (n in d <==> n in dir) && (n in d ==> d[n] == dir[n])
  {
    if event.Some? {
      var name := c1.FileName(event.value.eventId);
      if c2.Filter().Accept(Some(name)) {
        assert EndsWith(name, c1.suffix) by {
          assert name[|event.value.eventId|..] == c1.suffix;
        }
        SuffixesNest(name, c1.suffix, c2.suffix);
      }
    }
  }

  /** A store's deleteAllEvents does not touch a store of an unrelated suffix. */
  lemma PurgeKeepsOtherNamespace(c1: Config, c2: Config, dir: Dir, locked: set<string>)
    requires Unrelated(c1.suffix, c2.suffix)
    ensures var d := Purge(c1, dir, locked);
      forall n :: c2.Filter().Accept(Some(n)) ==> (n in d <==> n in dir) && (n in d ==> d[n] == dir[n])
  {
    forall n | c2.Filter().Accept(Some(n)) && c1.Filter().Accept(Some(n)) ensures false {
      SuffixesNest(n, c1.suffix, c2.suffix);
    }
  }

  /**
   * The filter only checks the end of the name: a store with suffix "_u1"
   * also owns the files of a store with suffix "_a_u1".
   */
  lemma NamespaceCollision()
    ensures EventFileFilter("_u1").Accept(Some("evt1" + "_a_u1"))
  {
    assert "evt1_a" + "_u1" == "evt1" + "_a_u1";
  }

  /** With an empty suffix a store owns every file of the directory. */
  lemma EmptySuffixOwnsEverything(cfg: Config, dir: Dir)
    requires cfg.suffix == ""
    ensures Namespace(cfg, dir) == dir.Keys
  {
    forall n | n in dir ensures cfg.Filter().Accept(Some(n)) {
      assert n + "" == n;
    }
  }
}
