/**
 * The freshness record kept at `<installRoot>/config.json`: when the Build
 * Tools were last installed or updated, and whether a modify run is due.
 * The file is taken as already read and parsed, and the current time is a
 * parameter in unix seconds.
 */
module ConfigCache {
  import opened Wrappers
  import opened Paths

  /** The record's file name under the install root. */
  const ConfigFileName: string := "config.json"

  /** How long an installation stays fresh: 24 hours, in seconds. */
  const FreshnessWindow: int := 24 * 60 * 60

  /** The fields of `config.json`; each may be absent from the JSON object. */
  datatype ConfigRecord = ConfigRecord(lastUpdated: Option<int>, needsModify: Option<bool>)

  /** What a file of the node holds, once parsed: a record, or text that is not one. */
  datatype StoredConfig = Parsed(record: ConfigRecord) | Unparsable

  /** Why a freshness question has no answer. */
  datatype CacheError = MissingConfig | MalformedConfig

  /** The parsed files of the node; a path that is not a key does not exist. */
  type Files = map<Path, StoredConfig>

  /** Where the record of an install root lives. */
  function ConfigPath(root: Path): (p: Path)
    ensures p.Child? && p.parent == root && p.name == ConfigFileName
  {
    Child(root, ConfigFileName)
  }

  /** Whether a stored file is a record that carries its timestamp. */
  predicate HasTimestamp(stored: StoredConfig) {
    stored.Parsed? && stored.record.lastUpdated.Some?
  }

  /**
   * Whether the installation under `root` needs an update at time `now`:
   * yes when no record exists, otherwise whether more than the freshness
   * window has passed since the recorded time. A record without a
   * timestamp, or one that does not parse, is an error, not a yes.
   */
  function NeedsUpdate(files: Files, root: Path, now: int): (r: Result<bool, CacheError>)
    ensures r.Err? <==> ConfigPath(root) in files && !HasTimestamp(files[ConfigPath(root)])
    ensures r.Err? ==> r.error == MalformedConfig
    ensures r == Ok(false) <==>
      ConfigPath(root) in files && HasTimestamp(files[ConfigPath(root)])
      && now <= files[ConfigPath(root)].record.lastUpdated.value + FreshnessWindow
  {
    var path := ConfigPath(root);
    if path !in files then Ok(true)
    else if !HasTimestamp(files[path]) then Err(MalformedConfig)
    else Ok(now - files[path].record.lastUpdated.value > FreshnessWindow)
  }

  /**
   * The `needsModify` flag of the record under `root`, false when the key is
   * absent. The record must exist and parse; its timestamp is not consulted.
   */
  function NeedsModify(files: Files, root: Path): (r: Result<bool, CacheError>)
    ensures r == Err(MissingConfig) <==> ConfigPath(root) !in files
    ensures r == Err(MalformedConfig) <==> ConfigPath(root) in files && files[ConfigPath(root)].Unparsable?
    ensures r == Ok(true) <==>
      ConfigPath(root) in files && files[ConfigPath(root)].Parsed?
      && files[ConfigPath(root)].record.needsModify == Some(true)
  {
    var path := ConfigPath(root);
    if path !in files then Err(MissingConfig)
    else if files[path].Unparsable? then Err(MalformedConfig)
    else Ok(files[path].record.needsModify.GetOr(false))
  }

  /** Without a record an update is always due. */
  lemma MissingRecordNeedsUpdate(files: Files, root: Path, now: int)
    requires ConfigPath(root) !in files
    ensures NeedsUpdate(files, root, now) == Ok(true)
  {
  }

  /** Once an update is due, it stays due as time goes on. */
  lemma StaleStaysStale(files: Files, root: Path, now1: int, now2: int)
    requires now1 <= now2 && NeedsUpdate(files, root, now1) == Ok(true)
    ensures NeedsUpdate(files, root, now2) == Ok(true)
  {
  }

  /** An installation that is fresh now was fresh at every earlier time too, back to its timestamp. */
  lemma FreshWasFresh(files: Files, root: Path, now1: int, now2: int)
    requires now1 <= now2 && NeedsUpdate(files, root, now2) == Ok(false)
    ensures NeedsUpdate(files, root, now1) == Ok(false)
  {
  }

  /**
   * The exact boundary: up to and including 24 hours after the timestamp the
   * installation is fresh, from one second later it is stale.
   */
  lemma WindowBoundary(files: Files, root: Path, last: int)
    requires ConfigPath(root) in files && files[ConfigPath(root)] == Parsed(ConfigRecord(Some(last), None))
    ensures NeedsUpdate(files, root, last + FreshnessWindow) == Ok(false)
    ensures NeedsUpdate(files, root, last + FreshnessWindow + 1) == Ok(true)
  {
  }

  /** The answers depend on the record under `root` alone. */
  lemma OnlyTheRecordMatters(files1: Files, files2: Files, root: Path, now: int)
    requires ConfigPath(root) in files1 <==> ConfigPath(root) in files2
    requires ConfigPath(root) in files1 ==> files1[ConfigPath(root)] == files2[ConfigPath(root)]
    ensures NeedsUpdate(files1, root, now) == NeedsUpdate(files2, root, now)
    ensures NeedsModify(files1, root) == NeedsModify(files2, root)
  {
  }

  /**
   * Writing a record stamped with the time of an install, as the step after
   * a successful install does, makes the installation fresh for the next
   * 24 hours, and clears a pending modify run.
   */
  lemma StampedRecordIsFresh(files: Files, root: Path, stamp: int, now: int)
    requires stamp <= now <= stamp + FreshnessWindow
    ensures NeedsUpdate(files[ConfigPath(root) := Parsed(ConfigRecord(Some(stamp), Some(false)))], root, now) == Ok(false)
    ensures NeedsModify(files[ConfigPath(root) := Parsed(ConfigRecord(Some(stamp), Some(false)))], root) == Ok(false)
  {
  }

  /** A record whose `needsModify` key is absent asks for no modify run. */
  lemma AbsentFlagMeansNoModify(files: Files, root: Path)
    requires ConfigPath(root) in files && files[ConfigPath(root)].Parsed?
    requires files[ConfigPath(root)].record.needsModify.None?
    ensures NeedsModify(files, root) == Ok(false)
  {
  }

  /** The installer test: a record stamped this very second is fresh. */
  lemma UpdatedJustNow(files: Files, root: Path, now: int)
    requires ConfigPath(root) in files && files[ConfigPath(root)] == Parsed(ConfigRecord(Some(now), None))
    ensures NeedsUpdate(files, root, now) == Ok(false)
  {
  }

  /** The installer test: a record stamped at 1619300929 is stale at any time more than a day later. */
  lemma UpdatedLongAgo(files: Files, root: Path, now: int)
    requires ConfigPath(root) in files && files[ConfigPath(root)] == Parsed(ConfigRecord(Some(1619300929), None))
    requires now > 1619300929 + FreshnessWindow
    ensures NeedsUpdate(files, root, now) == Ok(true)
  {
  }

  /** The installer test: `{"needsModify": true}` asks for a modify run. */
  lemma ModifyRequested(files: Files, root: Path)
    requires ConfigPath(root) in files && files[ConfigPath(root)] == Parsed(ConfigRecord(None, Some(true)))
    ensures NeedsModify(files, root) == Ok(true)
  {
  }
}
