/** The older server executable of server/server.go: its settings come
    from command-line flags, and the route is normalised as the newer
    executable does. */
module LegacyServer {
  import opened Wrappers
  import opened Flags
  import Paths

  /** The settings this executable declares. */
  datatype ServerFlags = ServerFlags(
    addr: string,
    secretKey: string,
    outputDirectory: string,
    route: string,
    certificateFile: string,
    certificateKey: string)

  const DEFAULT_ADDR: string := ":9000"
  const DEFAULT_OUT: string := "./"
  const DEFAULT_ROUTE: string := "/clioud"

  /** `parseFlags` with the flags given on the command line (by name);
      None is the index-out-of-range panic an empty route causes. */
  method ParseFlags(given: map<string, string>) returns (flags: Option<ServerFlags>)
    ensures flags.None? <==> FlagValue(given, "route", DEFAULT_ROUTE) == ""
    ensures flags.Some? ==>
      && flags.value.addr == FlagValue(given, "addr", DEFAULT_ADDR)
      && flags.value.secretKey == FlagValue(given, "key", "")
      && flags.value.outputDirectory == FlagValue(given, "out", DEFAULT_OUT)
      && flags.value.route == Paths.NormalizedRoute(FlagValue(given, "route", DEFAULT_ROUTE))
      && flags.value.certificateFile == FlagValue(given, "cfile", "")
      && flags.value.certificateKey == FlagValue(given, "ckey", "")
    ensures given == map[] ==> flags == Some(ServerFlags(DEFAULT_ADDR, "", DEFAULT_OUT, DEFAULT_ROUTE, "", ""))
  {
    var f := ServerFlags(
      FlagValue(given, "addr", DEFAULT_ADDR),
      FlagValue(given, "key", ""),
      FlagValue(given, "out", DEFAULT_OUT),
      FlagValue(given, "route", DEFAULT_ROUTE),
      FlagValue(given, "cfile", ""),
      FlagValue(given, "ckey", ""));

    if |f.route| == 0 {
      return None;
    }
    if f.route[0] != '/' {
      f := f.(route := "/" + f.route);
    }
    if f.route[|f.route| - 1] == '/' {
      f := f.(route := f.route[..|f.route| - 1]);
    }
    return Some(f);
  }
}
