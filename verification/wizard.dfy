/** The interactive part of a run: one step per configuration section, each
    a no-op when prompting is suppressed and otherwise rewriting only its own
    section, then the choice of where to save. */
module Wizard {
  import opened Wrappers
  import opened Text
  import opened Subsequences
  import opened Config
  import opened Prompts
  import opened Validators
  import opened OsInfo

  /** `d` differs from `c` at most in the general section of its configuration. */
  predicate OnlyGeneral(c: Configurator, d: Configurator) {
    d.(config := d.config.(general := c.config.general)) == c
  }

  predicate OnlyNetwork(c: Configurator, d: Configurator) {
    d.(config := d.config.(network := c.config.network)) == c
  }

  predicate OnlyRules(c: Configurator, d: Configurator) {
    d.(config := d.config.(rules := c.config.rules)) == c
  }

  predicate OnlyLogging(c: Configurator, d: Configurator) {
    d.(config := d.config.(logging := c.config.logging)) == c
  }

  /** General section: the instance name (free text, current name as
      default) and whether the NIDS is enabled (yes/no, current value as
      default). The configuration version is never asked for. */
  function ConfigureGeneral(c: Configurator, input: seq<string>): (r: Option<Reply<Configurator>>)
    ensures c.nonInteractive ==> r == Some(Reply(c, input))
    ensures r.Some? ==> OnlyGeneral(c, r.value.value) && Suffix(r.value.rest, input)
    ensures !c.nonInteractive ==>
      (r.Some? <==> |input| > 0 && PromptYesNo(input[1..], c.config.general.enabled).Some?)
    ensures r.Some? && !c.nonInteractive ==>
      var before := c.config.general;
      var g := r.value.value.config.general;
      var answer := PromptYesNo(input[1..], before.enabled).value;
      && g.nidsName == (if Strip(input[0]) != "" then Strip(input[0]) else before.nidsName)
      && g.enabled == answer.value
      && g.configVersion == before.configVersion
      && r.value.rest == answer.rest
  {
    if c.nonInteractive then
      Some(Reply(c, input))
    else
      var g := c.config.general;
      var name :- PromptStr(input, Some(g.nidsName));
      var enabled :- PromptYesNo(name.rest, g.enabled);
      assert input[1..][|input| - 1 - |enabled.rest|..] == input[|input| - |enabled.rest|..];
      Some(Reply(c.(config := c.config.(general := g.(nidsName := name.value, enabled := enabled.value))), enabled.rest))
  }

  /** Network section: a required list of interfaces, then the four CIDR
      lists, each filtered by the parser of its IP version before it is
      stored. */
  function ConfigureNetwork(c: Configurator, input: seq<string>, host: Host): (r: Option<Reply<Configurator>>)
    ensures c.nonInteractive ==> r == Some(Reply(c, input))
    ensures r.Some? ==> OnlyNetwork(c, r.value.value) && Suffix(r.value.rest, input)
    ensures r.Some? && !c.nonInteractive ==>
      var n := r.value.value.config.network;
      && |n.interfaces| > 0
      && (forall x :: x in n.ipv4HomeNets ==> host.isIPv4Network(x))
      && (forall x :: x in n.ipv4ExcludedNets ==> host.isIPv4Network(x))
      && (forall x :: x in n.ipv6HomeNets ==> host.isIPv6Network(x))
      && (forall x :: x in n.ipv6ExcludedNets ==> host.isIPv6Network(x))
    ensures !c.nonInteractive ==>
      var interfaces := PromptList(input, false);
      var v4Home := if interfaces.Some? then PromptList(interfaces.value.rest, true) else None;
      var v4Excluded := if v4Home.Some? then PromptList(v4Home.value.rest, true) else None;
      var v6Home := if v4Excluded.Some? then PromptList(v4Excluded.value.rest, true) else None;
      var v6Excluded := if v6Home.Some? then PromptList(v6Home.value.rest, true) else None;
      && (r.Some? <==> v6Excluded.Some?)
      && (r.Some? ==>
        var n := r.value.value.config.network;
        && n.interfaces == interfaces.value.value
        && n.ipv4HomeNets == ValidateCidrList(v4Home.value.value, 4, host).kept
        && n.ipv4ExcludedNets == ValidateCidrList(v4Excluded.value.value, 4, host).kept
        && n.ipv6HomeNets == ValidateCidrList(v6Home.value.value, 6, host).kept
        && n.ipv6ExcludedNets == ValidateCidrList(v6Excluded.value.value, 6, host).kept
        && r.value.rest == v6Excluded.value.rest)
  {
    if c.nonInteractive then
      Some(Reply(c, input))
    else
      var interfaces :- PromptList(input, false);
      var v4Home :- PromptList(interfaces.rest, true);
      var v4Excluded :- PromptList(v4Home.rest, true);
      var v6Home :- PromptList(v4Excluded.rest, true);
      var v6Excluded :- PromptList(v6Home.rest, true);
      var network := Network(
        interfaces.value,
        ValidateCidrList(v4Home.value, 4, host).kept,
        ValidateCidrList(v4Excluded.value, 4, host).kept,
        ValidateCidrList(v6Home.value, 6, host).kept,
        ValidateCidrList(v6Excluded.value, 6, host).kept);
      SuffixTrans(v4Home.rest, interfaces.rest, input);
      SuffixTrans(v4Excluded.rest, v4Home.rest, input);
      SuffixTrans(v6Home.rest, v4Excluded.rest, input);
      SuffixTrans(v6Excluded.rest, v6Home.rest, input);
      Some(Reply(c.(config := c.config.(network := network)), v6Excluded.rest))
  }

  /** Rules section: a required list of rule directories, kept whole by the
      advisory path check, then the enabled and disabled rule-set names,
      stored as typed. */
  function ConfigureRules(c: Configurator, input: seq<string>, host: Host): (r: Option<Reply<Configurator>>)
    ensures c.nonInteractive ==> r == Some(Reply(c, input))
    ensures r.Some? ==> OnlyRules(c, r.value.value) && Suffix(r.value.rest, input)
    ensures r.Some? && !c.nonInteractive ==>
      && PromptList(input, false).Some?
      && r.value.value.config.rules.rulePaths == PromptList(input, false).value.value
      && |r.value.value.config.rules.rulePaths| > 0
    ensures !c.nonInteractive ==>
      var paths := PromptList(input, false);
      var enabledSets := if paths.Some? then PromptList(paths.value.rest, true) else None;
      var disabledSets := if enabledSets.Some? then PromptList(enabledSets.value.rest, true) else None;
      && (r.Some? <==> disabledSets.Some?)
      && (r.Some? ==>
        var rules := r.value.value.config.rules;
        && rules.rulePaths == paths.value.value
        && rules.enabledRuleSets == enabledSets.value.value
        && rules.disabledRuleSets == disabledSets.value.value
        && r.value.rest == disabledSets.value.rest)
  {
    if c.nonInteractive then
      Some(Reply(c, input))
    else
      var paths :- PromptList(input, false);
      var enabledSets :- PromptList(paths.rest, true);
      var disabledSets :- PromptList(enabledSets.rest, true);
      var rules := Rules(ValidatePaths(paths.value, host).kept, enabledSets.value, disabledSets.value);
      SuffixTrans(enabledSets.rest, paths.rest, input);
      SuffixTrans(disabledSets.rest, enabledSets.rest, input);
      Some(Reply(c.(config := c.config.(rules := rules)), disabledSets.rest))
  }

  /** Logging section: the mode (one of file, syslog, both; the current mode
      on a blank line), then the log file only for file or both, the syslog
      target only for syslog or both, and finally the level. */
  function ConfigureLogging(c: Configurator, input: seq<string>): (r: Option<Reply<Configurator>>)
    ensures c.nonInteractive ==> r == Some(Reply(c, input))
    ensures r.Some? ==> OnlyLogging(c, r.value.value) && Suffix(r.value.rest, input)
    ensures !c.nonInteractive ==>
      var before := c.config.logging;
      var modeAnswer := PromptChoice(input, ModeNames, Some(ModeName(before.mode)));
      var mode := if modeAnswer.Some? && modeAnswer.value.value in ModeNames then ModeNamed(modeAnswer.value.value) else before.mode;
      var logFile :=
        if modeAnswer.None? then None
        else if mode == File || mode == Both then PromptStr(modeAnswer.value.rest, Some(before.logFile))
        else Some(Reply(before.logFile, modeAnswer.value.rest));
      var syslogTarget :=
        if logFile.None? then None
        else if mode == Syslog || mode == Both then PromptStr(logFile.value.rest, Some(before.syslogTarget))
        else Some(Reply(before.syslogTarget, logFile.value.rest));
      var level := if syslogTarget.None? then None else PromptChoice(syslogTarget.value.rest, LevelNames, Some(LevelName(before.logLevel)));
      && (r.Some? <==> level.Some?)
      && (r.Some? ==>
        var after := r.value.value.config.logging;
        && after.mode == mode && ModeName(mode) == modeAnswer.value.value
        && after.logFile == logFile.value.value
        && after.syslogTarget == syslogTarget.value.value
        && LevelName(after.logLevel) == level.value.value
        && r.value.rest == level.value.rest)
  {
    if c.nonInteractive then
      Some(Reply(c, input))
    else
      var before := c.config.logging;
      var modeAnswer :- PromptChoice(input, ModeNames, Some(ModeName(before.mode)));
      var mode := ModeNamed(modeAnswer.value);
      var logFile :-
        if mode == File || mode == Both then PromptStr(modeAnswer.rest, Some(before.logFile))
        else Some(Reply(before.logFile, modeAnswer.rest));
      var syslogTarget :-
        if mode == Syslog || mode == Both then PromptStr(logFile.rest, Some(before.syslogTarget))
        else Some(Reply(before.syslogTarget, logFile.rest));
      var levelAnswer :- PromptChoice(syslogTarget.rest, LevelNames, Some(LevelName(before.logLevel)));
      var logging := Logging(mode, logFile.value, syslogTarget.value, LevelNamed(levelAnswer.value));
      SuffixTrans(logFile.rest, modeAnswer.rest, input);
      SuffixTrans(syslogTarget.rest, logFile.rest, input);
      SuffixTrans(levelAnswer.rest, syslogTarget.rest, input);
      Some(Reply(c.(config := c.config.(logging := logging)), levelAnswer.rest))
  }

  /** The logging step never asks for a field the chosen mode does not use:
      in syslog mode the log file is kept, in file mode the syslog target. */
  lemma LoggingKeepsUnusedFields(c: Configurator, input: seq<string>)
    ensures var r := ConfigureLogging(c, input);
      r.Some? ==>
        var before := c.config.logging;
        var after := r.value.value.config.logging;
        && (after.mode == Syslog ==> after.logFile == before.logFile)
        && (after.mode == File ==> after.syslogTarget == before.syslogTarget)
  {
    var r := ConfigureLogging(c, input);
    if r.Some? && !c.nonInteractive {
      var before := c.config.logging;
      var modeAnswer := PromptChoice(input, ModeNames, Some(ModeName(before.mode))).value;
      var mode := r.value.value.config.logging.mode;
      if mode == Syslog {
        assert ModeName(mode) == modeAnswer.value;
        assert r.value.value.config.logging.logFile == before.logFile;
      } else if mode == File {
        var logFile := PromptStr(modeAnswer.rest, Some(before.logFile)).value;
        assert r.value.value.config.logging.syslogTarget == before.syslogTarget;
      }
    }
  }

  /** The save path offered by default: the configurator's path on hosts
      whose family name is "ubuntu" or "rhel", the working directory
      otherwise. */
  function SavePathDefault(family: string, configPath: string): (path: string)
    ensures family in {"ubuntu", "rhel"} ==> path == configPath
    ensures family !in {"ubuntu", "rhel"} ==> path == "./nids-config.yml"
  {
    if family == "ubuntu" || family == "rhel" then configPath else "./nids-config.yml"
  }

  /** What a run produces: the final configuration and where to save it. */
  datatype Outcome = Outcome(config: Config, savePath: string)

  /** The four section steps in order, each reading where the previous one
      stopped. */
  function Steps(c: Configurator, input: seq<string>, host: Host): (r: Option<Reply<Configurator>>)
    ensures r.Some? ==> Suffix(r.value.rest, input)
    ensures r.Some? ==> r.value.value.config.general.configVersion == c.config.general.configVersion
    ensures r.Some? ==> r.value.value.configPath == c.configPath && r.value.value.nonInteractive == c.nonInteractive
    ensures r.Some? && !c.nonInteractive ==>
      |r.value.value.config.network.interfaces| > 0 && |r.value.value.config.rules.rulePaths| > 0
    ensures c.nonInteractive ==> r == Some(Reply(c, input))
  {
    var general := ConfigureGeneral(c, input);
    var network := if general.Some? then ConfigureNetwork(general.value.value, general.value.rest, host) else None;
    var rules := if network.Some? then ConfigureRules(network.value.value, network.value.rest, host) else None;
    if rules.None? then
      None
    else
      var logging := ConfigureLogging(rules.value.value, rules.value.rest);
      if logging.None? then
        None
      else
        SuffixTrans(network.value.rest, general.value.rest, input);
        SuffixTrans(rules.value.rest, network.value.rest, input);
        SuffixTrans(logging.value.rest, rules.value.rest, input);
        logging
  }

  /** The steps answer with the logging step's reply, on the lines the
      rules step left, on the lines the network step left, on the lines the
      general step left. */
  lemma StepsChain(c: Configurator, input: seq<string>, host: Host)
    ensures
      var general := ConfigureGeneral(c, input);
      var network := if general.Some? then ConfigureNetwork(general.value.value, general.value.rest, host) else None;
      var rules := if network.Some? then ConfigureRules(network.value.value, network.value.rest, host) else None;
      Steps(c, input, host) == if rules.Some? then ConfigureLogging(rules.value.value, rules.value.rest) else None
  {
  }

  /** A whole run after the banner: the four section steps in order, then
      the save-path prompt, which is asked even when prompting is otherwise
      suppressed. */
  function Run(c: Configurator, os: OsInfo, input: seq<string>, host: Host): (r: Option<Reply<Outcome>>)
    ensures r.Some? ==> Suffix(r.value.rest, input)
    ensures r.Some? ==> r.value.value.config.general.configVersion == c.config.general.configVersion
    ensures r.Some? && !c.nonInteractive ==>
      |r.value.value.config.network.interfaces| > 0 && |r.value.value.config.rules.rulePaths| > 0
    ensures c.nonInteractive ==>
      && (r.Some? <==> |input| > 0)
      && (r.Some? ==> r.value.value.config == c.config && r.value.rest == input[1..])
    ensures r.Some? ==>
      && |r.value.rest| < |input|
      && var line := Strip(input[|input| - |r.value.rest| - 1]);
        r.value.value.savePath == if line != "" then line else SavePathDefault(FamilyName(os.family), c.configPath)
    ensures r.Some? <==> Steps(c, input, host).Some? && |Steps(c, input, host).value.rest| > 0
    ensures r.Some? ==>
      && r.value.value.config == Steps(c, input, host).value.value.config
      && r.value.rest == Steps(c, input, host).value.rest[1..]
  {
    var steps := Steps(c, input, host);
    if steps.None? || |steps.value.rest| == 0 then
      None
    else
      var savePath := SavePathDefault(FamilyName(os.family), c.configPath);
      var path := PromptStr(steps.value.rest, Some(savePath)).value;
      PromptStrLine(steps.value.rest, savePath, input);
      Some(Reply(Outcome(steps.value.value.config, path.value), path.rest))
  }

  /** A run is the general, network, rules and logging steps in that order,
      each reading where the previous one stopped, followed by one line for
      the save path. */
  lemma RunFollowsSteps(c: Configurator, os: OsInfo, input: seq<string>, host: Host)
    ensures
      var r := Run(c, os, input, host);
      var general := ConfigureGeneral(c, input);
      var network := if general.Some? then ConfigureNetwork(general.value.value, general.value.rest, host) else None;
      var rules := if network.Some? then ConfigureRules(network.value.value, network.value.rest, host) else None;
      var logging := if rules.Some? then ConfigureLogging(rules.value.value, rules.value.rest) else None;
      && (r.Some? <==> logging.Some? && |logging.value.rest| > 0)
      && (r.Some? ==> r.value.value.config == logging.value.value.config && r.value.rest == logging.value.rest[1..])
  {
    StepsChain(c, input, host);
  }

  /** With prompting on, a run's general section is what the general step
      made of the first lines: the later steps never touch it. */
  lemma RunAsksGeneralFirst(c: Configurator, os: OsInfo, input: seq<string>, host: Host)
    ensures var r := Run(c, os, input, host);
      !c.nonInteractive && r.Some? ==>
        && |input| > 0
        && var g := r.value.value.config.general;
        && g.nidsName == (if Strip(input[0]) != "" then Strip(input[0]) else c.config.general.nidsName)
        && PromptYesNo(input[1..], c.config.general.enabled).Some?
        && g.enabled == PromptYesNo(input[1..], c.config.general.enabled).value.value
  {
    var r := Run(c, os, input, host);
    RunFollowsSteps(c, os, input, host);
    if !c.nonInteractive && r.Some? {
      var general := ConfigureGeneral(c, input).value;
      var network := ConfigureNetwork(general.value, general.rest, host).value;
      var rules := ConfigureRules(network.value, network.rest, host).value;
      var logging := ConfigureLogging(rules.value, rules.rest).value;
      assert network.value.config.general == general.value.config.general;
      assert rules.value.config.general == general.value.config.general;
      assert r.value.value.config.general == general.value.config.general;
    }
  }

  /** The logging step of a run starts from the logging section the run was
      given: the steps before it never touch that section, so its prompts
      offer the given values as their defaults. */
  lemma RunAsksLoggingFromStart(c: Configurator, os: OsInfo, input: seq<string>, host: Host)
    ensures
      var r := Run(c, os, input, host);
      var general := ConfigureGeneral(c, input);
      var network := if general.Some? then ConfigureNetwork(general.value.value, general.value.rest, host) else None;
      var rules := if network.Some? then ConfigureRules(network.value.value, network.value.rest, host) else None;
      var logging := if rules.Some? then ConfigureLogging(rules.value.value, rules.value.rest) else None;
      && (rules.Some? ==> rules.value.value.config.logging == c.config.logging)
      && (r.Some? ==> logging.Some? && r.value.value.config.logging == logging.value.value.config.logging)
  {
    RunFollowsSteps(c, os, input, host);
  }

  /** For every family the detector can report, only Ubuntu hosts are
      offered the configurator's path: the detector names the Red Hat family
      "redhat", never "rhel", so Red Hat hosts fall to the working directory. */
  lemma SavePathByFamily(f: Family, configPath: string)
    ensures SavePathDefault(FamilyName(f), configPath)
      == if f == Ubuntu then configPath else "./nids-config.yml"
    ensures FamilyName(f) != "rhel"
  {
  }

  /** A run without prompting whose only line is blank saves the
      configuration as given, to the default path for the detected family. */
  lemma {:induction false} QuietRunSavesToFamilyDefault(c: Configurator, os: OsInfo, host: Host)
    requires c.nonInteractive
    ensures Run(c, os, [""], host)
      == Some(Reply(Outcome(c.config, if os.family == Ubuntu then c.configPath else "./nids-config.yml"), []))
  {
    SavePathByFamily(os.family, c.configPath);
    assert Strip("") == "" by { StripCharsKeepsTrimmed("", Whitespace); }
  }

  /** `x` is made of lines typed between `input` and `rest`, in the order they
      were typed (trimmed, possibly with some left out). */
  predicate Typed(x: seq<string>, input: seq<string>, rest: seq<string>) {
    Suffix(rest, input) && IsSubseq(x, StripAll(Consumed(input, rest)))
  }

  /** Reading is cumulative: what was read up to `rest` is what was read up
      to `mid` followed by what was read from `mid` to `rest`. */
  lemma ConsumedSplit(input: seq<string>, mid: seq<string>, rest: seq<string>)
    requires Suffix(rest, mid) && Suffix(mid, input)
    ensures Suffix(rest, input)
    ensures StripAll(Consumed(input, rest)) == StripAll(Consumed(input, mid)) + StripAll(Consumed(mid, rest))
  {
    SuffixTrans(rest, mid, input);
    var a := |input| - |mid|;
    assert Consumed(mid, rest) == input[a..|input| - |rest|];
    assert Consumed(input, rest) == Consumed(input, mid) + Consumed(mid, rest);
  }

  lemma TypedLater(x: seq<string>, input: seq<string>, mid: seq<string>, rest: seq<string>)
    requires Suffix(mid, input) && Typed(x, mid, rest)
    ensures Typed(x, input, rest)
  {
    ConsumedSplit(input, mid, rest);
    SubseqPrepend(x, StripAll(Consumed(input, mid)), StripAll(Consumed(mid, rest)));
  }

  lemma TypedEarlier(x: seq<string>, input: seq<string>, mid: seq<string>, rest: seq<string>)
    requires Typed(x, input, mid) && Suffix(rest, mid)
    ensures Typed(x, input, rest)
  {
    ConsumedSplit(input, mid, rest);
    SubseqAppend(x, StripAll(Consumed(input, mid)), StripAll(Consumed(mid, rest)));
  }

  /** The answer of a list prompt is made of the lines it read. */
  lemma ListIsTyped(input: seq<string>, allowEmpty: bool)
    requires PromptList(input, allowEmpty).Some?
    ensures var r := PromptList(input, allowEmpty).value;
      Typed(r.value, input, r.rest)
  {
    PromptListSpec(input, allowEmpty);
    var r := PromptList(input, allowEmpty).value;
    var e := |input| - |r.rest| - 1;
    var b := e - |r.value|;
    StripAllSlice(input, b, e, e + 1);
    SliceIsSubseq(StripAll(input[..e + 1]), b, e);
  }

  lemma StripAllSlice(lines: seq<string>, b: int, e: int, n: int)
    requires 0 <= b <= e <= n <= |lines|
    ensures StripAll(lines[b..e]) == StripAll(lines[..n])[b..e]
  {
    assert forall k :: 0 <= k < e - b ==> lines[b..e][k] == lines[..n][b + k];
  }

  /** Every list the network step stores is made of lines typed during the
      step, in the order typed: the interfaces as entered, and each CIDR
      list with the unparsable entries left out. */
  lemma {:induction false} NetworkListsAreTyped(c: Configurator, input: seq<string>, host: Host)
    ensures !c.nonInteractive && ConfigureNetwork(c, input, host).Some? ==>
      var r := ConfigureNetwork(c, input, host).value;
      var n := r.value.config.network;
      && Typed(n.interfaces, input, r.rest)
      && Typed(n.ipv4HomeNets, input, r.rest) && Typed(n.ipv4ExcludedNets, input, r.rest)
      && Typed(n.ipv6HomeNets, input, r.rest) && Typed(n.ipv6ExcludedNets, input, r.rest)
  {
    if !c.nonInteractive && ConfigureNetwork(c, input, host).Some? {
      var interfaces := PromptList(input, false).value;
      var v4Home := PromptList(interfaces.rest, true).value;
      var v4Excluded := PromptList(v4Home.rest, true).value;
      var v6Home := PromptList(v4Excluded.rest, true).value;
      var v6Excluded := PromptList(v6Home.rest, true).value;
      var rest := v6Excluded.rest;
      ListIsTyped(input, false);
      ListIsTyped(interfaces.rest, true);
      ListIsTyped(v4Home.rest, true);
      ListIsTyped(v4Excluded.rest, true);
      ListIsTyped(v6Home.rest, true);
      // interfaces
      TypedEarlier(interfaces.value, input, interfaces.rest, v4Home.rest);
      TypedEarlier(interfaces.value, input, v4Home.rest, v4Excluded.rest);
      TypedEarlier(interfaces.value, input, v4Excluded.rest, v6Home.rest);
      TypedEarlier(interfaces.value, input, v6Home.rest, rest);
      // IPv4 home
      var h4 := ValidateCidrList(v4Home.value, 4, host).kept;
      SubseqTrans(h4, v4Home.value, StripAll(Consumed(interfaces.rest, v4Home.rest)));
      TypedLater(h4, input, interfaces.rest, v4Home.rest);
      TypedEarlier(h4, input, v4Home.rest, v4Excluded.rest);
      TypedEarlier(h4, input, v4Excluded.rest, v6Home.rest);
      TypedEarlier(h4, input, v6Home.rest, rest);
      // IPv4 excluded
      var x4 := ValidateCidrList(v4Excluded.value, 4, host).kept;
      SubseqTrans(x4, v4Excluded.value, StripAll(Consumed(v4Home.rest, v4Excluded.rest)));
      TypedLater(x4, interfaces.rest, v4Home.rest, v4Excluded.rest);
      TypedLater(x4, input, interfaces.rest, v4Excluded.rest);
      TypedEarlier(x4, input, v4Excluded.rest, v6Home.rest);
      TypedEarlier(x4, input, v6Home.rest, rest);
      // IPv6 home
      var h6 := ValidateCidrList(v6Home.value, 6, host).kept;
      SubseqTrans(h6, v6Home.value, StripAll(Consumed(v4Excluded.rest, v6Home.rest)));
      TypedLater(h6, v4Home.rest, v4Excluded.rest, v6Home.rest);
      TypedLater(h6, interfaces.rest, v4Home.rest, v6Home.rest);
      TypedLater(h6, input, interfaces.rest, v6Home.rest);
      TypedEarlier(h6, input, v6Home.rest, rest);
      // IPv6 excluded
      var x6 := ValidateCidrList(v6Excluded.value, 6, host).kept;
      SubseqTrans(x6, v6Excluded.value, StripAll(Consumed(v6Home.rest, rest)));
      TypedLater(x6, v4Excluded.rest, v6Home.rest, rest);
      TypedLater(x6, v4Home.rest, v4Excluded.rest, rest);
      TypedLater(x6, interfaces.rest, v4Home.rest, rest);
      TypedLater(x6, input, interfaces.rest, rest);
    }
  }

  /** Every list the rules step stores is made of lines typed during the
      step, in the order typed. */
  lemma {:induction false} RulesListsAreTyped(c: Configurator, input: seq<string>, host: Host)
    ensures !c.nonInteractive && ConfigureRules(c, input, host).Some? ==>
      var r := ConfigureRules(c, input, host).value;
      var rules := r.value.config.rules;
      && Typed(rules.rulePaths, input, r.rest)
      && Typed(rules.enabledRuleSets, input, r.rest)
      && Typed(rules.disabledRuleSets, input, r.rest)
  {
    if !c.nonInteractive && ConfigureRules(c, input, host).Some? {
      var paths := PromptList(input, false).value;
      var enabledSets := PromptList(paths.rest, true).value;
      var disabledSets := PromptList(enabledSets.rest, true).value;
      var rest := disabledSets.rest;
      ListIsTyped(input, false);
      ListIsTyped(paths.rest, true);
      ListIsTyped(enabledSets.rest, true);
      TypedEarlier(paths.value, input, paths.rest, enabledSets.rest);
      TypedEarlier(paths.value, input, enabledSets.rest, rest);
      TypedLater(enabledSets.value, input, paths.rest, enabledSets.rest);
      TypedEarlier(enabledSets.value, input, enabledSets.rest, rest);
      TypedLater(disabledSets.value, paths.rest, enabledSets.rest, rest);
      TypedLater(disabledSets.value, input, paths.rest, rest);
    }
  }
}
