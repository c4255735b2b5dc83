/** Concrete runs of the model on inputs the repository's unit tests use. */
module Scenarios {
  import opened Wrappers
  import opened Text
  import opened Config
  import opened Prompts
  import opened Validators
  import opened OsInfo
  import opened Wizard

  /** A leading blank line ends an empty first pass, which a required list
      discards; the retry then collects "item1". */
  lemma RequiredListRetries()
    ensures PromptList(["", "item1", ""], false) == Some(Reply(["item1"], []))
  {
    assert 'i' !in Whitespace && '1' !in Whitespace;
    StripCharsKeepsTrimmed("", Whitespace);
    StripCharsKeepsTrimmed("item1", Whitespace);
    assert [""][1..] == [];
    assert Collect([""]) == Some(Reply([], []));
    assert ["item1", ""][1..] == [""];
    assert Collect(["item1", ""][1..]) == Some(Reply([], []));
    assert ["item1"] + [] == ["item1"];
    assert Collect(["item1", ""]) == Some(Reply(["item1"], []));
    assert Collect(["", "item1", ""]) == Some(Reply([], ["item1", ""]));
  }

  /** An unrecognised answer is read and the question asked again. */
  lemma YesNoRepromptsOnInvalid()
    ensures PromptYesNo(["invalid", "y"], true) == Some(Reply(true, []))
  {
    YesNoKeys();
    assert YesNoVerdict("invalid", true) == None;
    assert YesNoVerdict("y", true) == Some(true);
    assert ["invalid", "y"][1..] == ["y"];
  }

  lemma YesNoKeys()
    ensures YesNoKey("invalid") == "invalid" && YesNoKey("y") == "y"
  {
    assert 'i' !in Whitespace && 'd' !in Whitespace && 'y' !in Whitespace;
    StripCharsKeepsTrimmed("invalid", Whitespace);
    StripCharsKeepsTrimmed("y", Whitespace);
    assert Lower("invalid") == "invalid";
    assert Lower("y") == "y";
  }

  /** The general step on "TestNIDS" then "y" renames the instance and
      keeps it enabled. */
  lemma GeneralTakesTypedAnswers()
    ensures var r := ConfigureGeneral(NewConfigurator(), ["TestNIDS", "y"]);
      && r.Some?
      && r.value.value.config.general == General("TestNIDS", 1, true)
      && r.value.rest == []
  {
    assert 'T' !in Whitespace && 'S' !in Whitespace;
    StripCharsKeepsTrimmed("TestNIDS", Whitespace);
    YesNoKeys();
    assert ["TestNIDS", "y"][1..] == ["y"];
    assert PromptYesNo(["y"], true) == Some(Reply(true, []));
  }

  /** A blank line alone is an empty answer when one is allowed. */
  lemma BlankIsEmptyList(tail: seq<string>)
    ensures PromptList([""] + tail, true) == Some(Reply([], tail))
  {
    assert Strip("") == "";
    assert ([""] + tail)[1..] == tail;
  }

  /** One non-blank line and a blank one give a one-item answer. */
  lemma OneItemList(x: string, tail: seq<string>, allowEmpty: bool)
    requires Strip(x) != ""
    ensures PromptList([x, ""] + tail, allowEmpty) == Some(Reply([Strip(x)], tail))
  {
    var input := [x, ""] + tail;
    assert Strip("") == "";
    assert input[1..] == [""] + tail;
    assert ([""] + tail)[1..] == tail;
    assert Collect(input[1..]) == Some(Reply([], tail));
    assert [Strip(x)] + [] == [Strip(x)];
  }

  lemma RulePathTrimmed()
    ensures Strip("/etc/rules") == "/etc/rules"
  {
    assert '/' !in Whitespace && 's' !in Whitespace;
    StripCharsKeepsTrimmed("/etc/rules", Whitespace);
  }

  lemma RuleSetTrimmed()
    ensures Strip("ruleset1") == "ruleset1"
  {
    assert 'r' !in Whitespace && '1' !in Whitespace;
    StripCharsKeepsTrimmed("ruleset1", Whitespace);
  }

  lemma RulePathsAnswered()
    ensures PromptList(["/etc/rules", "", "ruleset1", "", "", ""], false) == Some(Reply(["/etc/rules"], ["ruleset1", "", "", ""]))
  {
    RulePathTrimmed();
    OneItemList("/etc/rules", ["ruleset1", "", "", ""], false);
    assert ["/etc/rules", "", "ruleset1", "", "", ""] == ["/etc/rules", ""] + ["ruleset1", "", "", ""];
  }

  lemma RuleSetsAnswered()
    ensures PromptList(["ruleset1", "", "", ""], true) == Some(Reply(["ruleset1"], ["", ""]))
    ensures PromptList(["", ""], true) == Some(Reply([], [""]))
  {
    RuleSetTrimmed();
    OneItemList("ruleset1", ["", ""], true);
    assert ["ruleset1", "", "", ""] == ["ruleset1", ""] + ["", ""];
    BlankIsEmptyList([""]);
    assert ["", ""] == [""] + [""];
  }

  /** The rules step on "/etc/rules", "", "ruleset1", "", "", "" stores one
      rule directory, one enabled rule set and no disabled ones. */
  lemma RulesTakeTypedAnswers(host: Host)
    ensures var r := ConfigureRules(NewConfigurator(), ["/etc/rules", "", "ruleset1", "", "", ""], host);
      && r.Some?
      && r.value.value.config.rules == Rules(["/etc/rules"], ["ruleset1"], [])
      && r.value.rest == [""]
  {
    RulePathsAnswered();
    RuleSetsAnswered();
  }

  lemma ChoiceLinesTrimmed()
    ensures Strip("invalid") == "invalid" && Strip("opt1") == "opt1"
  {
    assert 'i' !in Whitespace && 'd' !in Whitespace && 'o' !in Whitespace && '1' !in Whitespace;
    StripCharsKeepsTrimmed("invalid", Whitespace);
    StripCharsKeepsTrimmed("opt1", Whitespace);
  }

  /** A line naming no choice is read and the question asked again. */
  lemma ChoiceRepromptsOnInvalid()
    ensures PromptChoice(["invalid", "opt1"], ["opt1", "opt2"], None) == Some(Reply("opt1", []))
  {
    var input := ["invalid", "opt1"];
    ChoiceLinesTrimmed();
    assert ChoiceVerdict(input[1], ["opt1", "opt2"], None) == Some("opt1");
    PromptChoiceSpec(input, ["opt1", "opt2"], None);
  }

  /** Of "192.168.1.0/24", "invalid", "10.0.0.0/8", only the middle entry is
      dropped (and warned about) when it is the only one IPv4 parsing rejects. */
  lemma CidrDropsTheInvalidEntry(host: Host)
    requires host.isIPv4Network("192.168.1.0/24") && host.isIPv4Network("10.0.0.0/8")
    requires !host.isIPv4Network("invalid")
    ensures ValidateCidrList(["192.168.1.0/24", "invalid", "10.0.0.0/8"], 4, host)
      == Checked(["192.168.1.0/24", "10.0.0.0/8"], ["invalid"])
  {
    CidrLastTwo(host);
    var cidrs := ["192.168.1.0/24", "invalid", "10.0.0.0/8"];
    assert cidrs[1..] == ["invalid", "10.0.0.0/8"];
  }

  lemma CidrLastTwo(host: Host)
    requires host.isIPv4Network("10.0.0.0/8") && !host.isIPv4Network("invalid")
    ensures ValidateCidrList(["invalid", "10.0.0.0/8"], 4, host) == Checked(["10.0.0.0/8"], ["invalid"])
  {
    var cidrs := ["invalid", "10.0.0.0/8"];
    assert cidrs[1..] == ["10.0.0.0/8"];
    assert ValidateCidrList(["10.0.0.0/8"], 4, host) == Checked(["10.0.0.0/8"], []);
  }

  lemma CentosLineStripped()
    ensures Strip("ID=\"centos\"\n") == "ID=\"centos\""
  {
    var line := "ID=\"centos\"\n";
    assert line[|line| - 1] in Whitespace;
    assert line[..|line| - 1] == "ID=\"centos\"";
    assert 'I' !in Whitespace && '"' !in Whitespace;
    StripCharsKeepsTrimmed("ID=\"centos\"", Whitespace);
  }

  lemma CentosValueUnquoted()
    ensures StripChars("\"centos\"", {'"'}) == "centos"
  {
    var v := "\"centos\"";
    assert v[1..] == "centos\"";
    assert "centos\""[..6] == "centos";
    StripCharsKeepsTrimmed("centos", {'"'});
  }

  lemma CentosKey()
    ensures ParseLine("ID=\"centos\"\n").Some?
    ensures ParseLine("ID=\"centos\"\n").value.0 == "ID"
  {
    var line := "ID=\"centos\"\n";
    var stripped := "ID=\"centos\"";
    CentosLineStripped();
    assert line[0] != '#' && line[2] == '=';
    var key := ParseLine(line).value.0;
    assert stripped[0] != '=' && stripped[1] != '=' && stripped[2] == '=';
    assert |key| == 2;
    assert key == stripped[..2];
  }

  /** The os-release line `ID="centos"` as read from the file, newline
      included: the line is trimmed, split at `=`, and the quotes dropped. */
  lemma CentosIdLine()
    ensures ParseLine("ID=\"centos\"\n") == Some(("ID", "centos"))
  {
    CentosKey();
    CentosLineStripped();
    CentosValueUnquoted();
    var stripped := "ID=\"centos\"";
    assert stripped[3..] == "\"centos\"";
  }

  lemma CentosHasNoUbuntu()
    ensures !Contains("centos", "ubuntu") && !Contains("rhel fedora", "ubuntu")
  {
    assert 'u' in "ubuntu" && 'u' !in "centos" && 'u' !in "rhel fedora";
    ContainsKeepsChars("centos", "ubuntu");
    ContainsKeepsChars("rhel fedora", "ubuntu");
  }

  lemma CentosLikesRhel()
    ensures !Contains("centos", "rhel") && Contains("rhel fedora", "rhel")
  {
    assert 'h' in "rhel" && 'h' !in "centos";
    ContainsKeepsChars("centos", "rhel");
    assert Occurs("rhel", "rhel fedora", 0) by {
      assert "rhel fedora"[..4] == "rhel";
    }
  }

  /** CentOS declares `ID_LIKE="rhel fedora"` and is classified Red Hat, yet
      the save path offered is the working directory, not the configurator's
      path, because the save-path check looks for the family name "rhel". */
  lemma CentosSavesLocally(configPath: string)
    ensures Classify("centos", "rhel fedora") == Redhat
    ensures SavePathDefault(FamilyName(Classify("centos", "rhel fedora")), configPath) == "./nids-config.yml"
  {
    CentosHasNoUbuntu();
    CentosLikesRhel();
  }

  /** A release whose `ID` is "redhat" and which declares no `ID_LIKE` is of
      unknown family: "redhat" is only looked for in `ID_LIKE`. */
  lemma RedhatIdAloneIsUnknown()
    ensures Classify("redhat", "") == Unknown
  {
    assert 'u' in "ubuntu" && 'u' !in "redhat";
    assert 'l' in "rhel" && 'l' !in "redhat";
    ContainsKeepsChars("redhat", "ubuntu");
    ContainsKeepsChars("redhat", "rhel");
  }
}
