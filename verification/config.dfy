/** The configuration record the wizard fills in: four fixed sections
    (general, network, rules, logging) with their documented defaults, and the
    configurator state that carries it between the merge and the prompts. */
module Config {
  import opened Wrappers

  /** Where alerts go. The source stores the name as a string; only these
      three names are ever stored. */
  datatype LogMode = File | Syslog | Both

  datatype LogLevel = Debug | Info | Warning | Error

  /** The mode names in the order the logging prompt offers them. */
  const ModeNames: seq<string> := ["file", "syslog", "both"]

  /** The level names in the order the logging prompt offers them. */
  const LevelNames: seq<string> := ["DEBUG", "INFO", "WARNING", "ERROR"]

  function ModeName(m: LogMode): (s: string)
    ensures s in ModeNames
  {
    match m
    case File => "file"
    case Syslog => "syslog"
    case Both => "both"
  }

  /** The mode a stored name denotes. */
  function ModeNamed(s: string): (m: LogMode)
    requires s in ModeNames
    ensures ModeName(m) == s
  {
    if s == "file" then File else if s == "syslog" then Syslog else Both
  }

  function LevelName(l: LogLevel): (s: string)
    ensures s in LevelNames
  {
    match l
    case Debug => "DEBUG"
    case Info => "INFO"
    case Warning => "WARNING"
    case Error => "ERROR"
  }

  /** The level a stored name denotes. */
  function LevelNamed(s: string): (l: LogLevel)
    requires s in LevelNames
    ensures LevelName(l) == s
  {
    if s == "DEBUG" then Debug else if s == "INFO" then Info else if s == "WARNING" then Warning else Error
  }

  /** Naming a mode and reading the name back gives the same mode, so no two
      modes share a name. */
  lemma ModeNameRoundTrip(m: LogMode)
    ensures ModeNamed(ModeName(m)) == m
  {
  }

  lemma LevelNameRoundTrip(l: LogLevel)
    ensures LevelNamed(LevelName(l)) == l
  {
  }

  datatype General = General(nidsName: string, configVersion: int, enabled: bool)

  datatype Network = Network(
    interfaces: seq<string>,
    ipv4HomeNets: seq<string>,
    ipv4ExcludedNets: seq<string>,
    ipv6HomeNets: seq<string>,
    ipv6ExcludedNets: seq<string>)

  datatype Rules = Rules(
    rulePaths: seq<string>,
    enabledRuleSets: seq<string>,
    disabledRuleSets: seq<string>)

  datatype Logging = Logging(mode: LogMode, logFile: string, syslogTarget: string, logLevel: LogLevel)

  /** The whole configuration: exactly four sections, each with fixed fields. */
  datatype Config = Config(general: General, network: Network, rules: Rules, logging: Logging)

  /** All eight list fields of a configuration, in declaration order. */
  function Lists(c: Config): seq<seq<string>> {
    [c.network.interfaces, c.network.ipv4HomeNets, c.network.ipv4ExcludedNets,
     c.network.ipv6HomeNets, c.network.ipv6ExcludedNets,
     c.rules.rulePaths, c.rules.enabledRuleSets, c.rules.disabledRuleSets]
  }

  /** The configuration every run starts from. */
  function DefaultConfig(): (c: Config)
    ensures c.general.nidsName == "MyNIDS"
    ensures c.general.configVersion == 1
    ensures c.general.enabled
    ensures forall l :: l in Lists(c) ==> l == []
    ensures c.logging.mode == File && ModeName(c.logging.mode) == "file"
    ensures c.logging.logFile == "/var/log/nids/alerts.log"
    ensures c.logging.syslogTarget == "localhost:514"
    ensures c.logging.logLevel == Info && LevelName(c.logging.logLevel) == "INFO"
  {
    Config(
      General("MyNIDS", 1, true),
      Network([], [], [], [], []),
      Rules([], [], []),
      Logging(File, "/var/log/nids/alerts.log", "localhost:514", Info))
  }

  /** The configurator object: whether prompting is suppressed, the path
      offered for saving, the output path a command-line argument may set
      (absent until then), and the configuration being built. */
  datatype Configurator = Configurator(
    nonInteractive: bool,
    configPath: string,
    outputPath: Option<string>,
    config: Config)

  /** A freshly constructed configurator. */
  function NewConfigurator(configPath: string := "/etc/nids/nids-config.yml", nonInteractive: bool := false): (c: Configurator)
    ensures c.config == DefaultConfig()
    ensures c.outputPath.None?
    ensures c.configPath == configPath && c.nonInteractive == nonInteractive
  {
    Configurator(nonInteractive, configPath, None, DefaultConfig())
  }
}
