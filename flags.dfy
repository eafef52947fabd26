/** Command-line flags as the executables read them with Go's `flag`
    package: the flags given on the command line, by name, and a default for
    each flag that was not given. */
module Flags {

  /** The value given on the command line for a flag, or its default. */
  function FlagValue(given: map<string, string>, name: string, default: string): (v: string)
    ensures name in given ==> v == given[name]
    ensures name !in given ==> v == default
  {
    if name in given then given[name] else default
  }
}
