/** The command-line side of a run: the resolved argument set the parser
    produces and its merge into the configurator before the wizard starts. */
module CommandLine {
  import opened Wrappers
  import opened Text
  import opened Config
  import opened Prompts
  import opened Validators
  import opened OsInfo
  import opened Wizard

  /** The resolved arguments. A repeatable list option that never occurred
      is `None`, which is not the same as an empty list; the enumerated
      options can only hold one of their declared values. */
  datatype Args = Args(
    output: Option<string>,
    nonInteractive: bool,
    nidsName: string,
    configVersion: int,
    enabled: bool,
    interfaces: Option<seq<string>>,
    ipv4HomeNets: Option<seq<string>>,
    ipv4ExcludedNets: Option<seq<string>>,
    ipv6HomeNets: Option<seq<string>>,
    ipv6ExcludedNets: Option<seq<string>>,
    rulePaths: Option<seq<string>>,
    enabledRuleSets: Option<seq<string>>,
    disabledRuleSets: Option<seq<string>>,
    logMode: LogMode,
    logFile: string,
    syslogTarget: string,
    logLevel: LogLevel)

  /** All eight list options, in the order of `Config.Lists`. */
  function ListArgs(a: Args): seq<Option<seq<string>>> {
    [a.interfaces, a.ipv4HomeNets, a.ipv4ExcludedNets, a.ipv6HomeNets, a.ipv6ExcludedNets,
     a.rulePaths, a.enabledRuleSets, a.disabledRuleSets]
  }

  /** The arguments when nothing is given on the command line: scalar
      options default to the configuration's current values, list options
      and the output path are absent, prompting is not suppressed. */
  function ParserDefaults(cfg: Config): (a: Args)
    ensures a.output.None? && !a.nonInteractive
    ensures forall o :: o in ListArgs(a) ==> o.None?
  {
    Args(None, false,
      cfg.general.nidsName, cfg.general.configVersion, cfg.general.enabled,
      None, None, None, None, None, None, None, None,
      cfg.logging.mode, cfg.logging.logFile, cfg.logging.syslogTarget, cfg.logging.logLevel)
  }

  /** A list option given on the command line replaces the current list. */
  function Override(current: seq<string>, given: Option<seq<string>>): seq<string> {
    match given
    case Some(l) => l
    case None => current
  }

  /** The merge: scalar fields always take the argument's value, list fields
      only when the option was given (and then the whole list is replaced),
      the output path only when given; non-interactive mode can be switched
      on but never off. Nothing else changes. */
  function ApplyArgs(c: Configurator, a: Args): (d: Configurator)
    ensures d.configPath == c.configPath
    ensures d.nonInteractive == (c.nonInteractive || a.nonInteractive)
    ensures a.output.Some? ==> d.outputPath == a.output
    ensures a.output.None? ==> d.outputPath == c.outputPath
    ensures d.config.general == General(a.nidsName, a.configVersion, a.enabled)
    ensures d.config.logging == Logging(a.logMode, a.logFile, a.syslogTarget, a.logLevel)
    ensures forall i :: 0 <= i < 8 ==>
      && (ListArgs(a)[i].Some? ==> Lists(d.config)[i] == ListArgs(a)[i].value)
      && (ListArgs(a)[i].None? ==> Lists(d.config)[i] == Lists(c.config)[i])
  {
    var cfg := c.config;
    var network := Network(
      Override(cfg.network.interfaces, a.interfaces),
      Override(cfg.network.ipv4HomeNets, a.ipv4HomeNets),
      Override(cfg.network.ipv4ExcludedNets, a.ipv4ExcludedNets),
      Override(cfg.network.ipv6HomeNets, a.ipv6HomeNets),
      Override(cfg.network.ipv6ExcludedNets, a.ipv6ExcludedNets));
    var rules := Rules(
      Override(cfg.rules.rulePaths, a.rulePaths),
      Override(cfg.rules.enabledRuleSets, a.enabledRuleSets),
      Override(cfg.rules.disabledRuleSets, a.disabledRuleSets));
    Configurator(
      c.nonInteractive || a.nonInteractive,
      c.configPath,
      if a.output.Some? then a.output else c.outputPath,
      Config(
        General(a.nidsName, a.configVersion, a.enabled),
        network,
        rules,
        Logging(a.logMode, a.logFile, a.syslogTarget, a.logLevel)))
  }

  /** `b` applied after `a`, as one argument set: `b`'s scalars win, each list
      and the output path come from `b` when given there and from `a`
      otherwise, and non-interactive mode is on if either switches it on. */
  function Then(a: Args, b: Args): Args {
    b.(
      output := if b.output.Some? then b.output else a.output,
      nonInteractive := a.nonInteractive || b.nonInteractive,
      interfaces := if b.interfaces.Some? then b.interfaces else a.interfaces,
      ipv4HomeNets := if b.ipv4HomeNets.Some? then b.ipv4HomeNets else a.ipv4HomeNets,
      ipv4ExcludedNets := if b.ipv4ExcludedNets.Some? then b.ipv4ExcludedNets else a.ipv4ExcludedNets,
      ipv6HomeNets := if b.ipv6HomeNets.Some? then b.ipv6HomeNets else a.ipv6HomeNets,
      ipv6ExcludedNets := if b.ipv6ExcludedNets.Some? then b.ipv6ExcludedNets else a.ipv6ExcludedNets,
      rulePaths := if b.rulePaths.Some? then b.rulePaths else a.rulePaths,
      enabledRuleSets := if b.enabledRuleSets.Some? then b.enabledRuleSets else a.enabledRuleSets,
      disabledRuleSets := if b.disabledRuleSets.Some? then b.disabledRuleSets else a.disabledRuleSets)
  }

  /** Two merges in a row are one merge of the combined arguments. */
  lemma ApplyArgsThen(c: Configurator, a: Args, b: Args)
    ensures ApplyArgs(ApplyArgs(c, a), b) == ApplyArgs(c, Then(a, b))
  {
  }

  /** Merging the same arguments twice changes nothing more than merging
      them once. */
  lemma ApplyArgsIdempotent(c: Configurator, a: Args)
    ensures ApplyArgs(ApplyArgs(c, a), a) == ApplyArgs(c, a)
  {
    ApplyArgsThen(c, a, a);
    assert Then(a, a) == a;
  }

  /** Arguments taken entirely from the parser's defaults leave a
      configurator exactly as it was. */
  lemma ParserDefaultsChangeNothing(c: Configurator)
    ensures ApplyArgs(c, ParserDefaults(c.config)) == c
  {
  }

  /** The program's entry point after argument parsing: a fresh configurator,
      the merge, then the wizard. */
  function Session(a: Args, os: OsInfo, input: seq<string>, host: Host): (r: Option<Reply<Outcome>>)
    ensures a.nonInteractive ==>
      && (r.Some? <==> |input| > 0)
      && (r.Some? ==> r.value.value.config == ApplyArgs(NewConfigurator(), a).config)
    ensures r.Some? ==> r.value.value.config.general.configVersion == a.configVersion
    ensures !a.nonInteractive && r.Some? ==>
      && |input| > 0
      && var g := r.value.value.config.general;
      && g.nidsName == (if Strip(input[0]) != "" then Strip(input[0]) else a.nidsName)
      && PromptYesNo(input[1..], a.enabled).Some?
      && g.enabled == PromptYesNo(input[1..], a.enabled).value.value
  {
    var merged := ApplyArgs(NewConfigurator(), a);
    RunAsksGeneralFirst(merged, os, input, host);
    Run(merged, os, input, host)
  }

  /** With prompting on, the logging step of a session starts from the
      logging values given on the command line, so its prompts offer those
      values as their defaults; the steps before it leave them in place. */
  lemma SessionLoggingStartsFromArguments(a: Args, os: OsInfo, input: seq<string>, host: Host)
    ensures !a.nonInteractive ==>
      var r := Session(a, os, input, host);
      var general := ConfigureGeneral(ApplyArgs(NewConfigurator(), a), input);
      var network := if general.Some? then ConfigureNetwork(general.value.value, general.value.rest, host) else None;
      var rules := if network.Some? then ConfigureRules(network.value.value, network.value.rest, host) else None;
      var logging := if rules.Some? then ConfigureLogging(rules.value.value, rules.value.rest) else None;
      && (rules.Some? ==> rules.value.value.config.logging == Logging(a.logMode, a.logFile, a.syslogTarget, a.logLevel))
      && (r.Some? ==> logging.Some? && r.value.value.config.logging == logging.value.value.config.logging)
  {
    var merged := ApplyArgs(NewConfigurator(), a);
    RunAsksLoggingFromStart(merged, os, input, host);
  }
}
