/**
 * The event files as values: the directory an EventStoreManager writes into,
 * seen as a map from file name to contents, and what each of the store's
 * operations does to it or reads from it. The EventStoreManager class in
 * module EventStore is proved to behave as these functions say.
 */
module EventFiles {
  import opened Wrappers
  import opened LineReader
  import opened Cipher

  /**
   * An InstrumentationEvent as the store sees it: its id (getEventId()) and
   * its JSON form (toJson()).
   */
  datatype Event = Event(eventId: string, json: string)

  /** The directory's files: name to contents. */
  type Dir = map<string, string>

  /** String.endsWith. */
  predicate EndsWith(s: string, suffix: string) {
    |suffix| <= |s| && s[|s| - |suffix|..] == suffix
  }

  /** The filter that picks this store's files out of the shared directory. */
  datatype EventFileFilter = EventFileFilter(fileSuffix: string) {
    /** A file belongs to the store when its name is some id followed by the suffix. */
    function Accept(filename: Option<string>): (r: bool)
      ensures r <==> filename.Some? && exists id :: id + fileSuffix == filename.value
    {
      if filename.Some? && EndsWith(filename.value, fileSuffix) then
        var v := filename.value;
        assert v[..|v| - |fileSuffix|] + fileSuffix == v;
        true
      else
        false
    }
  }

  /**
   * What an EventStoreManager is built with: the file name suffix, the
   * encryption key, the cipher, and the InstrumentationEvent(String)
   * constructor that rebuilds an event from its decrypted JSON.
   */
  datatype Config = Config(
    suffix: string,
    key: string,
    crypto: Crypto,
    parse: string -> Event)
  {
    function Filter(): EventFileFilter { EventFileFilter(suffix) }
    function FileName(eventId: string): string { eventId + suffix }
  }

  /** storeEvent writes only a non-null event whose JSON is not empty. */
  predicate Storable(event: Option<Event>) {
    event.Some? && event.value.json != ""
  }

  /** deleteEvent and fetchEvent(String) act only on a non-null, non-empty id. */
  predicate UsableId(eventId: Option<string>) {
    eventId.Some? && eventId.value != ""
  }

  /** d1 and d2 agree on every file but the one named name. */
  ghost predicate SameExcept(d1: Dir, d2: Dir, name: string) {
    forall n :: n != name ==> (n in d1 <==> n in d2) && (n in d1 ==> d1[n] == d2[n])
  }

  /** The store's files in dir: those its filter accepts. */
  ghost function Namespace(cfg: Config, dir: Dir): set<string> {
    set n | n in dir && cfg.Filter().Accept(Some(n))
  }

  /** names lists every file of the namespace once, in some order. */
  ghost predicate IsListing(cfg: Config, dir: Dir, names: seq<string>) {
    && (forall i, j :: 0 <= i < j < |names| ==> names[i] != names[j])
    && (forall n :: n in names <==> n in Namespace(cfg, dir))
  }

  /**
   * How a write ends: the file is written in full; opening it fails, which
   * leaves the directory as it was; or a later step fails after opening
   * truncated the file, leaving the first kept characters of the ciphertext.
   */
  datatype WriteOutcome = Completed | OpenFailed | WriteFailed(kept: nat)

  function Truncate(s: string, n: nat): (r: string)
    ensures r <= s && |r| <= n
  {
    if n < |s| then s[..n] else s
  }

  /** The directory after storeEvent(event), when the write ends as outcome says. */
  function WriteEvent(cfg: Config, dir: Dir, event: Option<Event>, outcome: WriteOutcome): (d: Dir)
    ensures !Storable(event) || outcome.OpenFailed? ==> d == dir
    ensures event.Some? ==> SameExcept(d, dir, cfg.FileName(event.value.eventId))
    ensures Storable(event) && outcome.Completed? ==>
      d == dir[cfg.FileName(event.value.eventId) := cfg.crypto.encrypt(event.value.json, cfg.key)]
    ensures Storable(event) && outcome.WriteFailed? ==>
      && cfg.FileName(event.value.eventId) in d
      && d[cfg.FileName(event.value.eventId)] <= cfg.crypto.encrypt(event.value.json, cfg.key)
  {
    if !Storable(event) then dir
    else
      var name := cfg.FileName(event.value.eventId);
      var ciphertext := cfg.crypto.encrypt(event.value.json, cfg.key);
      match outcome
      case Completed => dir[name := ciphertext]
      case OpenFailed => dir
      case WriteFailed(kept) => dir[name := Truncate(ciphertext, kept)]
  }

  /** The directory after storeEvents(events), the i-th write ending as outcome(i) says. */
  function WriteEach(cfg: Config, dir: Dir, events: seq<Option<Event>>, outcome: nat -> WriteOutcome): (d: Dir)
    ensures forall n :: n in dir ==> n in d
    ensures forall n :: n in d && n !in dir ==> cfg.Filter().Accept(Some(n))
  {
    if events == [] then dir
    else
      var k := |events| - 1;
      var before := WriteEach(cfg, dir, events[..k], outcome);
      var d := WriteEvent(cfg, before, events[k], outcome(k));
      assert events[k].Some? ==> cfg.Filter().Accept(Some(cfg.FileName(events[k].value.eventId)));
      d
  }

  /**
   * fetchEvent(File) on the file called name: no event when the file is
   * missing, reading it fails, decrypting fails, or the decrypted text is
   * empty; otherwise the event rebuilt from the decrypted text.
   */
  function ReadFile(cfg: Config, dir: Dir, name: string, readFails: bool): (r: Option<Event>)
    ensures r.Some? <==>
      && name in dir && !readFails
      && exists s :: s != "" && cfg.crypto.decrypt(ReadBack(dir[name]), cfg.key) == Some(s)
  {
    if name !in dir || readFails then None
    else match cfg.crypto.decrypt(ReadBack(dir[name]), cfg.key)
      case None => None
      case Some(s) => if s == "" then None else Some(cfg.parse(s))
  }

  /** fetchEvent(eventId). */
  function LookupEvent(cfg: Config, dir: Dir, eventId: Option<string>, readFails: bool): (r: Option<Event>)
    ensures r.Some? ==> UsableId(eventId) && cfg.FileName(eventId.value) in dir
  {
    if !UsableId(eventId) then None
    else ReadFile(cfg, dir, cfg.FileName(eventId.value), readFails)
  }

  /**
   * deleteEvent(eventId): the directory afterwards and what File.delete()
   * answers; locked holds the files the file system refuses to remove.
   */
  function RemoveEvent(cfg: Config, dir: Dir, eventId: Option<string>, locked: set<string>): (r: (Dir, bool))
    ensures r.1 <==> UsableId(eventId) && cfg.FileName(eventId.value) in dir - locked
    ensures r.0.Keys == if r.1 then dir.Keys - {cfg.FileName(eventId.value)} else dir.Keys
    ensures forall n :: n in r.0 ==> r.0[n] == dir[n]
  {
    if !UsableId(eventId) then (dir, false)
    else
      var name := cfg.FileName(eventId.value);
      if name in dir && name !in locked then (dir - {name}, true) else (dir, false)
  }

  /** The directory after deleteEvents(eventIds). */
  function RemoveEach(cfg: Config, dir: Dir, eventIds: seq<Option<string>>, locked: set<string>): (d: Dir)
    ensures d.Keys <= dir.Keys
    ensures forall n :: n in d ==> d[n] == dir[n]
  {
    if eventIds == [] then dir
    else
      var k := |eventIds| - 1;
      RemoveEvent(cfg, RemoveEach(cfg, dir, eventIds[..k], locked), eventIds[k], locked).0
  }

  /** The directory after deleteAllEvents(): every file of the namespace that is not locked is gone. */
  function Purge(cfg: Config, dir: Dir, locked: set<string>): (d: Dir)
    ensures Namespace(cfg, d) == Namespace(cfg, dir) * locked
    ensures forall n :: n in dir && n !in Namespace(cfg, dir) ==> n in d && d[n] == dir[n]
    ensures forall n :: n in d ==> n in dir && d[n] == dir[n]
  {
    map n | n in dir && !(cfg.Filter().Accept(Some(n)) && n !in locked) :: dir[n]
  }

  /** What fetchAllEvents() collects from the files names, in that order. */
  function Collect(cfg: Config, dir: Dir, names: seq<string>, unreadable: set<string>): (events: seq<Event>)
    ensures |events| <= |names|
  {
    if names == [] then []
    else
      var k := |names| - 1;
      var before := Collect(cfg, dir, names[..k], unreadable);
      match ReadFile(cfg, dir, names[k], names[k] in unreadable)
      case Some(event) => before + [event]
      case None => before
  }
}
