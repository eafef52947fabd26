/** The older client executable of client/client.go: a server URL and a
    secret from the flags, and one upload per argument of the process. It
    sends every argument after the program name, flags included. */
module LegacyClient {
  import opened Flags
  import Paths
  import Client

  const DEFAULT_URL: string := "http://localhost:9000/files"

  /** `parseFlags`; `panicked` is the index-out-of-range panic an empty
      URL causes. Settings without a flag keep their zero value. */
  method ParseFlags(given: map<string, string>) returns (flags: Client.ClientFlags, panicked: bool)
    ensures panicked <==> FlagValue(given, "url", DEFAULT_URL) == ""
    ensures !panicked ==>
      && flags.serverUrl == Paths.StripTrailingSlash(FlagValue(given, "url", DEFAULT_URL))
      && flags.secretKey == FlagValue(given, "key", "")
      && flags.ttl == "" && flags.ca == "" && !flags.keepname
  {
    flags := Client.ClientFlags(FlagValue(given, "url", DEFAULT_URL), FlagValue(given, "key", ""), "", "", false);
    if |flags.serverUrl| == 0 {
      return flags, true;
    }
    if flags.serverUrl[|flags.serverUrl| - 1] == '/' {
      flags := flags.(serverUrl := flags.serverUrl[..|flags.serverUrl| - 1]);
    }
    panicked := false;
  }

  /** What a run does: panic, or print the usage (when the process has no
      argument) and send each argument. */
  datatype Run = Panics | Runs(usage: bool, flags: Client.ClientFlags, sent: seq<string>)

  /** `main`, with `osArgs` the process arguments, program name first. */
  method RunClient(given: map<string, string>, osArgs: seq<string>) returns (run: Run)
    requires |osArgs| >= 1
    ensures run.Panics? <==> FlagValue(given, "url", DEFAULT_URL) == ""
    ensures run.Runs? ==> (run.usage <==> |osArgs| == 1)
    ensures run.Runs? ==> run.sent == osArgs[1..]
    ensures run.Runs? && |osArgs| == 1 ==> run.sent == []
  {
    var flags, panicked := ParseFlags(given);
    if panicked {
      return Panics;
    }

    var usage := |osArgs| == 1;

    var sent := [];
    for i := 1 to |osArgs|
      invariant sent == osArgs[1..i]
    {
      sent := sent + [osArgs[i]];
    }
    return Runs(usage, flags, sent);
  }
}
