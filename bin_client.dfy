/** The client executable of bin/client/client.go: flags with their
    defaults, the server URL without a trailing '/', a ttl checked before
    anything is sent, and one upload per file argument. */
module BinClient {
  import opened Wrappers
  import opened Records
  import opened Flags
  import Paths
  import Client

  const DEFAULT_CA: string := "none"
  const DEFAULT_URL: string := "http://localhost:9000/clioud"

  /** How `parseFlags` ends: the flags, with whether the ttl failed to
      parse, or the index-out-of-range panic an empty URL causes. */
  datatype ParseOutcome = Parsed(flags: Client.ClientFlags, ttlError: bool) | Panicked

  /** `parseFlags` with the string flags given on the command line (by
      name) and the "keep" switch. */
  method ParseFlags(given: map<string, string>, keep: bool, parse: string -> Option<Duration>) returns (out: ParseOutcome)
    ensures out == Panicked <==> FlagValue(given, "url", DEFAULT_URL) == ""
    ensures out.Parsed? ==>
      && out.flags.ca == FlagValue(given, "ca", DEFAULT_CA)
      && out.flags.serverUrl == Paths.StripTrailingSlash(FlagValue(given, "url", DEFAULT_URL))
      && out.flags.secretKey == FlagValue(given, "key", "")
      && out.flags.ttl == FlagValue(given, "ttl", "")
      && out.flags.keepname == keep
      && (out.ttlError <==> out.flags.ttl != "" && parse(out.flags.ttl).None?)
  {
    var flags := Client.ClientFlags(
      FlagValue(given, "url", DEFAULT_URL),
      FlagValue(given, "key", ""),
      FlagValue(given, "ttl", ""),
      FlagValue(given, "ca", DEFAULT_CA),
      keep);

    if |flags.serverUrl| == 0 {
      return Panicked;
    }
    if flags.serverUrl[|flags.serverUrl| - 1] == '/' {
      flags := flags.(serverUrl := flags.serverUrl[..|flags.serverUrl| - 1]);
    }

    if flags.ttl != "" {
      if parse(flags.ttl).None? {
        return Parsed(flags, true);
      }
    }
    return Parsed(flags, false);
  }

  /** What a run does: exit with status 1 on a bad ttl, panic, or print the
      usage (when there is no file argument) and send each file argument. */
  datatype Run = Exits(code: int) | Panics | Runs(usage: bool, flags: Client.ClientFlags, sent: seq<string>)

  /** `main` with the string flags, the "keep" switch and the arguments
      left after the flags. */
  method RunClient(given: map<string, string>, keep: bool, args: seq<string>, parse: string -> Option<Duration>) returns (run: Run)
    ensures run.Exits? <==>
      FlagValue(given, "url", DEFAULT_URL) != "" && FlagValue(given, "ttl", "") != "" && parse(FlagValue(given, "ttl", "")).None?
    ensures run.Exits? ==> run.code == 1
    ensures run.Runs? ==> (run.usage <==> |args| < 1) && run.sent == args
    ensures run.Panics? <==> FlagValue(given, "url", DEFAULT_URL) == ""
    ensures run.Runs? ==>
      FlagValue(given, "url", DEFAULT_URL) != "" && run.flags.serverUrl == Paths.StripTrailingSlash(FlagValue(given, "url", DEFAULT_URL))
    ensures run.Runs? ==> run.flags.ttl == "" || parse(run.flags.ttl).Some?
  {
    var parsed := ParseFlags(given, keep, parse);
    if parsed.Panicked? {
      return Panics;
    }
    if parsed.ttlError {
      return Exits(1);
    }

    var usage := |args| < 1;

    var sent := [];
    for i := 0 to |args|
      invariant sent == args[..i]
    {
      sent := sent + [args[i]];
    }
    return Runs(usage, parsed.flags, sent);
  }
}
