/** The server executable of bin/server/server.go: the configuration
    starts from hard-coded defaults, is overlaid with the TOML file when it
    reads and decodes, has its route normalised and its storage kind
    checked; a configuration file that cannot be read leaves the defaults
    in force. */
module BinServer {
  import opened Wrappers
  import opened Records
  import Paths

  /** The defaults used without a configuration file. */
  const DEFAULT_CONFIG: Config := Config(
    ":9000", "", "/tmp", "/upd", "", "", FS_STORAGE, FSConfig("/tmp"), S3Config("", "", ""))

  /** The values a TOML file sets; an absent key leaves the field as it was. */
  datatype ConfigOverlay = ConfigOverlay(
    addr: Option<string>,
    secretKey: Option<string>,
    runtimeDir: Option<string>,
    route: Option<string>,
    certificateFile: Option<string>,
    certificateKey: Option<string>,
    storage: Option<string>,
    outputDirectory: Option<string>,
    accessKey: Option<string>,
    accessSecret: Option<string>,
    bucket: Option<string>)

  /** The configuration file as the executable finds it. */
  datatype ConfigFile = Unreadable | Undecodable | Decoded(overlay: ConfigOverlay)

  /** `toml.Decode` into a configuration. */
  function Overlay(c: Config, o: ConfigOverlay): (r: Config)
    ensures o.route.Some? ==> r.route == o.route.value
    ensures o.route.None? ==> r.route == c.route
    ensures o.storage.Some? ==> r.storage == o.storage.value
    ensures o.storage.None? ==> r.storage == c.storage
  {
    Config(
      o.addr.GetOr(c.addr),
      o.secretKey.GetOr(c.secretKey),
      o.runtimeDir.GetOr(c.runtimeDir),
      o.route.GetOr(c.route),
      o.certificateFile.GetOr(c.certificateFile),
      o.certificateKey.GetOr(c.certificateKey),
      o.storage.GetOr(c.storage),
      FSConfig(o.outputDirectory.GetOr(c.fs.outputDirectory)),
      S3Config(o.accessKey.GetOr(c.s3.accessKey), o.accessSecret.GetOr(c.s3.accessSecret), o.bucket.GetOr(c.s3.bucket)))
  }

  datatype ReadError = ReadFailed | DecodeFailed

  /** How `readFromFile` ends: with a configuration and maybe an error, by
      exiting the process, or by the index-out-of-range panic an empty
      route causes. */
  datatype ReadOutcome = Loaded(config: Config, err: Option<ReadError>) | Exited(code: int) | Panicked

  /** `readFromFile`. */
  method ReadFromFile(file: ConfigFile) returns (out: ReadOutcome)
    ensures file == Unreadable ==> out == Loaded(DEFAULT_CONFIG, Some(ReadFailed))
    ensures file == Undecodable ==> out == Loaded(DEFAULT_CONFIG, Some(DecodeFailed))
    ensures out == Panicked <==> file.Decoded? && Overlay(DEFAULT_CONFIG, file.overlay).route == ""
    ensures out.Exited? ==> out.code == 1 && file.Decoded?
    ensures file.Decoded? && out.Loaded? ==>
      var decoded := Overlay(DEFAULT_CONFIG, file.overlay);
      && decoded.route != ""
      && out == Loaded(decoded.(route := Paths.NormalizedRoute(decoded.route)), None)
    ensures out.Loaded? ==> out.config.storage == FS_STORAGE || out.config.storage == S3_STORAGE
    ensures file.Decoded? && Overlay(DEFAULT_CONFIG, file.overlay).route != "" ==>
      (out.Exited? <==> Overlay(DEFAULT_CONFIG, file.overlay).storage !in {FS_STORAGE, S3_STORAGE})
  {
    var config := DEFAULT_CONFIG;

    if file.Unreadable? {
      return Loaded(config, Some(ReadFailed));
    }
    if file.Undecodable? {
      return Loaded(config, Some(DecodeFailed));
    }
    config := Overlay(config, file.overlay);

    if |config.route| == 0 {
      return Panicked;
    }
    if config.route[0] != '/' {
      config := config.(route := "/" + config.route);
    }
    if config.route[|config.route| - 1] == '/' {
      config := config.(route := config.route[..|config.route| - 1]);
    }

    if config.storage != FS_STORAGE && config.storage != S3_STORAGE {
      return Exited(1);
    }

    return Loaded(config, None);
  }

  /** How `main` goes on: with a configuration for `NewServer`, or not. */
  datatype StartupOutcome = Starts(config: Config) | Exits(code: int) | Panics

  /** `main`: a configuration file that cannot be read or decoded is only
      warned about, and the server starts on what `readFromFile` returned. */
  method StartupConfig(file: ConfigFile) returns (out: StartupOutcome)
    ensures file == Unreadable || file == Undecodable ==> out == Starts(DEFAULT_CONFIG)
    ensures out.Starts? ==> out.config.storage == FS_STORAGE || out.config.storage == S3_STORAGE
    ensures out.Starts? ==> out.config.route == "" || out.config.route[0] == '/'
  {
    var read := ReadFromFile(file);
    match read
    case Loaded(config, _) =>
      if file.Decoded? {
        Paths.NormalizedRouteShape(Overlay(DEFAULT_CONFIG, file.overlay).route);
      }
      out := Starts(config);
    case Exited(code) =>
      out := Exits(code);
    case Panicked =>
      out := Panics;
  }
}
