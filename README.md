# parse, don't validate — the non-empty vector, modelled in Dafny

The repository contrasts two ways of handling a list that must not be empty,
with three small Rust programs:

- `head/src/main.rs` makes `head` total over slices by returning an `Option`,
  and applies it to a zero-length `u8` array.
- `configuration_directories/src/main.rs` ("validate") reads `CONFIG_DIRS`,
  splits it on commas, panics if the list is empty and then forgets the
  check. So `main` still has to handle a `None` from `head` that cannot happen.
- `configuration_directories/src/non_empty.rs` ("parse") turns the list into a
  `NonEmptyVec<T>(T, Vec<T>)`. Only `parse_non_empty`-style code can build
  one, and its `head` is total with no check at all.

In the sources shown, `configuration_directories/src/main.rs` declares
`mod non_empty;`, so `non_empty.rs` is compiled as a module of that binary
and its own `main` is never called there. The model treats that `main` as
the entry point of the "parse" version, as the repository presents it.

The model has one module per source file, plus the library behaviour those
files rely on:

- `Wrappers`: Rust's `Option` and `Result`.
- `Environment`: the outcome of `env::var` and `unwrap_or_default`. The
  variable's value is a parameter. A missing or non-Unicode variable reads
  as `""`.
- `TextSplit`: `str::split(',')` as a function. Proved: `split` always yields
  at least one segment (one more than the number of commas, so `""` gives
  `[""]`); no segment contains the separator; and split and join are inverse
  in both directions.
- `Slices`: `<[T]>::get`.
- `NonEmpty` (non_empty.rs): the datatype, `head`, `Vec::pop`,
  `validate_non_empty`, `parse_non_empty`, `get_configuration_directories` and
  the value `main` hands to `initialize_cache`.
- `ConfigDirectories` (main.rs): `head` over slices,
  `get_configuration_directories` with its emptiness check, and `main`'s
  match including the dead `None` branch.
- `HeadProgram` (head/src/main.rs): `head` over slices and its use on `[u8; 0]`.
- `Programs`: lemmas that relate the two configuration programs.

`parse_non_empty` pops from the BACK. Its field 0 is therefore the input's
last element, and field 1 is the rest in original order. A textbook
description of the pattern (and the Haskell comment at the end of
non_empty.rs) takes the first element instead. The model follows the Rust
code. One consequence, proved in `Programs.CacheDirectoriesAgreeIffEndsAgree`:
the two configuration programs build the same list, but the "validate"
program initialises the cache with the first directory and the "parse"
program with the last. They agree exactly when those two segments are equal.

Both panics on an empty list ("CONFIG_DIRS cannot be empty") are `Err`
results carrying the panic message, and so is `main`'s "should never happen"
branch. The model proves all three unreachable. An unset `CONFIG_DIRS`
therefore does not panic: it yields the single directory `""`.

## Model

| member | source | states |
|---|---|---|
| `Environment.ValueOrDefault` | configuration_directories/src/main.rs:18 | the variable's value when `env::var` succeeds, `""` when it reports the variable missing or not Unicode |
| `TextSplit.Split` | configuration_directories/src/main.rs:19 | `split(',')` collected: one segment more than there are separators, no segment contains the separator, and joining the segments with the separator gives back the input |
| `TextSplit.SplitCount` | configuration_directories/src/main.rs:19 | `split(',')` yields one segment more than there are commas, hence never an empty list |
| `TextSplit.SplitEmpty` | configuration_directories/src/main.rs:19 | the empty string splits into the single segment `""` |
| `TextSplit.SplitSeparatorFree` | configuration_directories/src/main.rs:19 | no segment contains the separator |
| `TextSplit.JoinSplit` | configuration_directories/src/main.rs:19 | joining the segments with the separator gives back the input: the segments are the input's pieces, in order, with only the separators removed |
| `TextSplit.SplitJoin` | configuration_directories/src/non_empty.rs:13 | separator-free segments, joined and split again, come back unchanged; with `JoinSplit`, split is a bijection onto non-empty separator-free segment lists |
| `Slices.Get` | head/src/main.rs:17 | `slice.get(i)` is `None` exactly when `i` is out of bounds, else `Some(slice[i])` |
| `NonEmpty.Elements` | configuration_directories/src/non_empty.rs:21 | the vector a `NonEmptyVec` stands for has one element more than its tail and contains field 0 |
| `NonEmpty.NeverEmpty` | configuration_directories/src/non_empty.rs:21 | every `NonEmptyVec` value holds at least one element |
| `NonEmpty.Head` | configuration_directories/src/non_empty.rs:23-25 | `head` is total (no precondition) and returns an element the value holds |
| `NonEmpty.Pop` | configuration_directories/src/non_empty.rs:40 | `Vec::pop` returns `None` exactly on the empty vector, leaving it unchanged; otherwise pushing the popped element back restores the vector |
| `NonEmpty.ValidateNonEmpty` | configuration_directories/src/non_empty.rs:31-37 | `Err("Slice was empty")` exactly for the empty input, `Ok(())` otherwise |
| `NonEmpty.ParseNonEmpty` | configuration_directories/src/non_empty.rs:39-44 | `Err("Vec was empty")` exactly for the empty input; otherwise field 0 is the input's last element, field 1 the input without it in original order, and tail ++ [head] is the input |
| `NonEmpty.ParseElements` | configuration_directories/src/non_empty.rs:39-44 | round trip: parsing the vector a `NonEmptyVec` stands for returns that same value |
| `NonEmpty.ValidateAgreesWithParse` | configuration_directories/src/non_empty.rs:31-44 | `validate_non_empty` succeeds exactly when `parse_non_empty` does, and then the parsed value stands for exactly the input vector |
| `NonEmpty.HeadOfParse` | configuration_directories/src/non_empty.rs:23-44 | for every non-empty input, parsing succeeds and `head` of the result is the input's last element |
| `NonEmpty.GetConfigurationDirectories` | configuration_directories/src/non_empty.rs:11-19 | fails with "CONFIG_DIRS cannot be empty" exactly when the split list is empty; otherwise the `NonEmptyVec` stands for the comma-separated segments of the value (unset reads as "") in order |
| `NonEmpty.ConfigurationDirectoriesNeverPanic` | configuration_directories/src/non_empty.rs:13-17 | the panic is unreachable: the head is the last segment, the tail the earlier segments in order, and joined with commas they give the variable's value |
| `NonEmpty.UnsetVariableGivesEmptyPath` | configuration_directories/src/non_empty.rs:12-13 | an unset `CONFIG_DIRS` yields `NonEmptyVec("", [])`, not a panic |
| `NonEmpty.CacheDirectory` | configuration_directories/src/non_empty.rs:6-9 | `main` gets a cache directory exactly when the list was built, and it is one of the configured segments |
| `NonEmpty.CacheDirectoryIsLastSegment` | configuration_directories/src/non_empty.rs:7-8 | `main` always reaches `initialize_cache`, with the last comma-separated segment |
| `ConfigDirectories.Head` | configuration_directories/src/main.rs:28-30 | `head` returns `None` exactly for the empty slice, otherwise `Some` of the element at index 0 |
| `ConfigDirectories.GetConfigurationDirectories` | configuration_directories/src/main.rs:17-26 | fails with "CONFIG_DIRS cannot be empty" exactly when the split list is empty; otherwise returns the comma-separated segments of the value (unset reads as "") in order |
| `ConfigDirectories.ConfigurationDirectoriesNonEmpty` | configuration_directories/src/main.rs:19-25 | the emptiness check never fires: the list returned is non-empty and joined with commas gives the variable's value |
| `ConfigDirectories.UnsetVariableGivesEmptyPath` | configuration_directories/src/main.rs:18-19 | an unset `CONFIG_DIRS` yields the list `[""]`, not a panic |
| `ConfigDirectories.CacheDirectory` | configuration_directories/src/main.rs:8-14 | the directory `main` would initialise is one of the configured segments; a panic while building the list propagates with its message |
| `ConfigDirectories.DeadBranchUnreachable` | configuration_directories/src/main.rs:11-14 | `head(&config_dirs)` is always `Some`: `main` never takes the "should never happen" branch and initialises the first segment |
| `HeadProgram.Head` | head/src/main.rs:16-18 | `head` is total over all slices: `None` exactly for the empty slice, otherwise `Some(slice[0])` |
| `HeadProgram.HeadDependsOnlyOnFirst` | head/src/main.rs:16-17 | the result depends only on whether the slice is empty and on its element at index 0 |
| `HeadProgram.HeadOfEmptyArray` | head/src/main.rs:2-3 | `head` of the zero-length `[u8; 0]` array is `None` |
| `Programs.SameDirectoryList` | configuration_directories/src/non_empty.rs:13-16 | both configuration programs succeed and build the same list of directories from the same variable |
| `Programs.CacheDirectoriesAgreeIffEndsAgree` | configuration_directories/src/non_empty.rs:15-16 | both programs reach `initialize_cache`, and they pass it the same directory exactly when the first and last segments are equal |

## Left out

- Reading `CONFIG_DIRS` from the process environment: the outcome of `env::var` is a parameter of type `Result<string, VarError>`.
- `initialize_cache` (an unimplemented `todo!`), the `dbg!` output and the `main` functions' side effects. The model only computes the value `main` would pass on.
- Panics as process aborts: each panic is an `Err` carrying its message.
- `Path`/`PathBuf` filesystem semantics: paths are plain strings, and `.map(|s| s.into())` is the identity.
- The distinction between `&T` and `T`, and borrowing. `head` over slices is a pure function, so the slice it reads cannot change.
- `Vec::pop` updating the vector in place: it is modelled as a function that returns the shortened vector and the popped element.
- Rust strings are UTF-8 bytes. The model splits sequences of characters; for the ASCII `,` separator both give the same segments.
- The commented-out `head` in head/src/main.rs:8-13 has a non-exhaustive match and does not compile in Rust, so it has no behaviour to model.
- The Haskell `parseNonEmpty` comment at the end of non_empty.rs is not Rust code and takes the first element instead of the last.
- A parser from key-value pairs to a map with unique keys appears only in the accompanying prose, not in these source files, so it is not modelled.
