/** The one read of the process environment both configuration programs make:
    `env::var("CONFIG_DIRS").unwrap_or_default()`. The environment itself is not
    modelled; the outcome of `env::var` is a parameter of every caller. */
module Environment {
  import opened Wrappers

  /** Why `env::var` found no usable value. */
  datatype VarError = NotPresent | NotUnicode

  /** The outcome of reading one environment variable. */
  type VarResult = Result<string, VarError>

  /** `unwrap_or_default` on the outcome: a missing or non-Unicode variable
      reads as the empty string, `String`'s default. */
  function ValueOrDefault(v: VarResult): (s: string)
    ensures v.Ok? ==> s == v.value
    ensures v.Err? ==> s == ""
  {
    v.UnwrapOr("")
  }
}
