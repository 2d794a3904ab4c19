/** configuration_directories/src/non_empty.rs: the "parse" version of the
    configuration program. The emptiness check is done once, by a parser that
    returns a `NonEmptyVec`, whose shape makes the empty list impossible, so
    `Head` needs no check and cannot fail. */
module NonEmpty {
  import opened Wrappers
  import opened Environment
  import opened TextSplit

  /** `struct NonEmptyVec<T>(T, Vec<T>)`: field 0 is the mandatory element,
      field 1 the remaining ones. Both construction sites fill field 0 with
      the element popped from the BACK of a vector, so `popped` is the last
      element of the vector the value stands for, not its first. */
  datatype NonEmptyVec<T> = NonEmptyVec(popped: T, remaining: seq<T>)

  /** The vector a `NonEmptyVec` stands for, in the order `ParseNonEmpty` took
      it apart: the remaining elements, then the popped one. */
  function Elements<T>(ne: NonEmptyVec<T>): (s: seq<T>)
    ensures |s| == |ne.remaining| + 1
    ensures ne.popped in s
  {
    ne.remaining + [ne.popped]
  }

  /** Every `NonEmptyVec` holds at least one element. */
  lemma NeverEmpty<T>(ne: NonEmptyVec<T>)
    ensures |Elements(ne)| >= 1
    ensures Elements(ne) != []
  {
  }

  /** `head`: total, with no emptiness check, and what it returns is one of
      the elements the value holds. */
  function Head<T>(ne: NonEmptyVec<T>): (x: T)
    ensures x in Elements(ne)
  {
    ne.popped
  }

  /** `Vec::pop`: the vector without its last element, and that element, or
      the vector unchanged and `None` when it is empty. Pushing the popped
      element back restores the vector. */
  function Pop<T>(v: seq<T>): (r: (seq<T>, Option<T>))
    ensures r.1.None? <==> v == []
    ensures r.1.None? ==> r.0 == v
    ensures r.1.Some? ==> r.0 + [r.1.value] == v
  {
    if v == [] then (v, None) else (v[..|v| - 1], Some(v[|v| - 1]))
  }

  /** `validate_non_empty`: checks for emptiness and keeps nothing of the
      check but success or the message. */
  function ValidateNonEmpty<T>(v: seq<T>): (r: Result<(), string>)
    ensures r.Err? <==> |v| == 0
    ensures r.Err? ==> r.error == "Slice was empty"
  {
    if |v| == 0 then Err("Slice was empty") else Ok(())
  }

  /** `parse_non_empty`: fails exactly on the empty vector; otherwise the
      popped last element becomes field 0 and what is left, in its original
      order, field 1, so no element is lost or reordered. */
  function ParseNonEmpty<T>(v: seq<T>): (r: Result<NonEmptyVec<T>, string>)
    ensures r.Err? <==> v == []
    ensures r.Err? ==> r.error == "Vec was empty"
    ensures r.Ok? ==> Elements(r.value) == v
    ensures r.Ok? ==> r.value.popped == v[|v| - 1] && r.value.remaining == v[..|v| - 1]
  {
    match Pop(v)
    case (_, None) => Err("Vec was empty")
    case (rest, Some(x)) => Ok(NonEmptyVec(x, rest))
  }

  /** Parsing the vector a `NonEmptyVec` stands for gives that value back. */
  lemma ParseElements<T>(ne: NonEmptyVec<T>)
    ensures ParseNonEmpty(Elements(ne)) == Ok(ne)
  {
  }

  /** Validating and parsing accept exactly the same vectors; only parsing
      keeps the evidence. */
  lemma ValidateAgreesWithParse<T>(v: seq<T>)
    ensures ValidateNonEmpty(v).Ok? <==> ParseNonEmpty(v).Ok?
    ensures ValidateNonEmpty(v).Ok? ==> Elements(ParseNonEmpty(v).value) == v
  {
  }

  /** The head of a parsed vector is the vector's LAST element (the parser
      pops from the back). */
  lemma HeadOfParse<T>(v: seq<T>)
    requires v != []
    ensures ParseNonEmpty(v).Ok?
    ensures Head(ParseNonEmpty(v).value) == v[|v| - 1]
  {
  }

  /** `get_configuration_directories`: the comma-separated segments of the
      variable's value (an unset variable reads as ""), parsed with a single
      pop: the last segment is field 0, the earlier ones in order field 1. The
      panic for an empty list is the `Err` outcome. */
  function GetConfigurationDirectories(configDirs: VarResult): (r: Result<NonEmptyVec<string>, string>)
    ensures r.Err? <==> Split(ValueOrDefault(configDirs), ',') == []
    ensures r.Err? ==> r == Err("CONFIG_DIRS cannot be empty")
    ensures r.Ok? ==> Elements(r.value) == Split(ValueOrDefault(configDirs), ',')
  {
    var list := Split(ValueOrDefault(configDirs), ',');
    match Pop(list)
    case (_, None) => Err("CONFIG_DIRS cannot be empty")
    case (rest, Some(head)) => Ok(NonEmptyVec(head, rest))
  }

  /** The panic in `get_configuration_directories` cannot happen, because
      `split` always yields a segment: the result is the last segment as
      head and the earlier segments as tail, which joined back with commas
      give the variable's value. */
  lemma ConfigurationDirectoriesNeverPanic(configDirs: VarResult)
    ensures var segs := Split(ValueOrDefault(configDirs), ',');
      && |segs| >= 1
      && GetConfigurationDirectories(configDirs) == Ok(NonEmptyVec(segs[|segs| - 1], segs[..|segs| - 1]))
    ensures GetConfigurationDirectories(configDirs).Ok?
    ensures Join(Elements(GetConfigurationDirectories(configDirs).value), ',') == ValueOrDefault(configDirs)
  {
  }

  /** An unset variable gives one configuration directory, the empty path. */
  lemma UnsetVariableGivesEmptyPath()
    ensures GetConfigurationDirectories(Err(NotPresent)) == Ok(NonEmptyVec("", []))
  {
  }

  /** The cache directory `main` passes to `initialize_cache`:
      `head(get_configuration_directories())`, a panic propagated as `Err`. */
  function CacheDirectory(configDirs: VarResult): (r: Result<string, string>)
    ensures r.Ok? <==> GetConfigurationDirectories(configDirs).Ok?
    ensures r.Ok? ==> r.value in Split(ValueOrDefault(configDirs), ',')
  {
    match GetConfigurationDirectories(configDirs)
    case Err(e) => Err(e)
    case Ok(dirs) => Ok(Head(dirs))
  }

  /** `main` always reaches `initialize_cache`, with the LAST configured
      directory. */
  lemma CacheDirectoryIsLastSegment(configDirs: VarResult)
    ensures var segs := Split(ValueOrDefault(configDirs), ',');
      && |segs| >= 1
      && CacheDirectory(configDirs) == Ok(segs[|segs| - 1])
  {
  }
}
