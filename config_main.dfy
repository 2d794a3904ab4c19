/** configuration_directories/src/main.rs: the "validate" version of the
    configuration program. The list of directories stays a plain vector; it
    is checked for emptiness when it is built, and the check is forgotten, so
    `main` must handle a `None` from `Head` that cannot occur. */
module ConfigDirectories {
  import opened Wrappers
  import opened Environment
  import opened TextSplit
  import opened Slices

  /** `head`: the first element, or `None` for the empty slice. */
  function Head<T>(slice: seq<T>): (r: Option<T>)
    ensures r.None? <==> slice == []
    ensures r.Some? ==> r.value == slice[0]
  {
    Get(slice, 0)
  }

  /** `get_configuration_directories`: the comma-separated segments of the
      variable's value in order (an unset variable reads as ""), or the
      panic, as `Err`, when that list is empty. */
  function GetConfigurationDirectories(configDirs: VarResult): (r: Result<seq<string>, string>)
    ensures r.Err? <==> Split(ValueOrDefault(configDirs), ',') == []
    ensures r.Err? ==> r == Err("CONFIG_DIRS cannot be empty")
    ensures r.Ok? ==> r.value == Split(ValueOrDefault(configDirs), ',')
  {
    var list := Split(ValueOrDefault(configDirs), ',');
    if |list| == 0 then Err("CONFIG_DIRS cannot be empty") else Ok(list)
  }

  /** The emptiness check never fires: the list returned is never empty, and
      joined back with commas it is the variable's value. */
  lemma ConfigurationDirectoriesNonEmpty(configDirs: VarResult)
    ensures GetConfigurationDirectories(configDirs).Ok?
    ensures |GetConfigurationDirectories(configDirs).value| >= 1
    ensures Join(GetConfigurationDirectories(configDirs).value, ',') == ValueOrDefault(configDirs)
  {
  }

  /** An unset variable gives one configuration directory, the empty path. */
  lemma UnsetVariableGivesEmptyPath()
    ensures GetConfigurationDirectories(Err(NotPresent)) == Ok([""])
  {
  }

  /** The panic message `main` raises in its `None` branch. */
  const NeverHappens := "should never happen; already checked configDirs is non-empty"

  /** `main` up to `initialize_cache`: the directory it would initialise, a
      panic in `get_configuration_directories` propagated as `Err`, and the
      `None` branch of `head` as the `Err` carrying its own message. */
  function CacheDirectory(configDirs: VarResult): (r: Result<string, string>)
    ensures r.Ok? ==> r.value in Split(ValueOrDefault(configDirs), ',')
    ensures GetConfigurationDirectories(configDirs).Err? ==> r == Err("CONFIG_DIRS cannot be empty")
  {
    match GetConfigurationDirectories(configDirs)
    case Err(e) => Err(e)
    case Ok(dirs) =>
      match Head(dirs)
      case Some(cacheDir) => Ok(cacheDir)
      case None => Err(NeverHappens)
  }

  /** The `None` branch of `main` is dead, as its message says: `main`
      always reaches `initialize_cache`, with the FIRST configured
      directory. */
  lemma DeadBranchUnreachable(configDirs: VarResult)
    ensures var segs := Split(ValueOrDefault(configDirs), ',');
      && |segs| >= 1
      && CacheDirectory(configDirs) == Ok(segs[0])
    ensures CacheDirectory(configDirs) != Err(NeverHappens)
  {
  }
}
