/** The two configuration programs side by side. Both read the same
    variable and never fail, but they initialise the cache with different
    directories once more than one is configured: the "validate" program with
    the first, the "parse" program with the last, because `parse_non_empty`
    and `get_configuration_directories` pop from the back of the vector. */
module Programs {
  import opened Wrappers
  import opened Environment
  import opened TextSplit
  import NonEmpty
  import ConfigDirectories

  /** Both programs reach `initialize_cache`; they pass it the same
      directory exactly when the first and the last segment agree. */
  lemma CacheDirectoriesAgreeIffEndsAgree(configDirs: VarResult)
    ensures var segs := Split(ValueOrDefault(configDirs), ',');
      && |segs| >= 1
      && NonEmpty.CacheDirectory(configDirs).Ok?
      && ConfigDirectories.CacheDirectory(configDirs).Ok?
      && (NonEmpty.CacheDirectory(configDirs) == ConfigDirectories.CacheDirectory(configDirs)
          <==> segs[0] == segs[|segs| - 1])
  {
  }

  /** The two programs build the same list: the vector of `main.rs` is the
      vector the `NonEmptyVec` of `non_empty.rs` stands for. */
  lemma SameDirectoryList(configDirs: VarResult)
    ensures ConfigDirectories.GetConfigurationDirectories(configDirs).Ok?
    ensures NonEmpty.GetConfigurationDirectories(configDirs).Ok?
    ensures NonEmpty.Elements(NonEmpty.GetConfigurationDirectories(configDirs).value)
         == ConfigDirectories.GetConfigurationDirectories(configDirs).value
  {
  }
}
