# NIDS configurator — a Dafny model

The NIDS configurator is a terminal wizard. It fills a four-section
configuration record: general, network, rules and logging. Its values come
from three places, in this order:

1. the built-in defaults;
2. the command-line arguments, merged over those defaults;
3. the answers typed at a series of prompts.

It also detects the host's operating-system family from `/etc/os-release`
and uses that to propose a default save path.

The model is functional. Each part of the program is a pure function:

- **Prompts.** A prompt consumes a finite sequence of input lines. It returns
  `Some(Reply(answer, rest))`, where `rest` is the unread lines. It returns
  `None` when the lines run out before an answer, which is where Python
  raises `EOFError`.
- **The outside world.** It becomes parameters:
  - the typed lines;
  - a `Host` record holding three predicates: IPv4 network parse, IPv6
    network parse, and path existence;
  - the `platform.system()` / `platform.release()` strings;
  - the lines of the os-release file, or `None` when it is missing.

The modules follow the program:

| module | file | what it holds |
|---|---|---|
| `Wrappers` | wrappers.dfy | `Option` |
| `Text` | text.dfy | Python's `str.strip`, `str.lower`, `startswith` and substring test, on `seq<char>` |
| `Subsequences` | subsequences.dfy | order-preserving subsequence and its algebra |
| `Config` | config.dfy | the configuration record, the two enumerations, the defaults, the configurator's state |
| `Prompts` | prompts.dfy | the four prompt protocols over input lines |
| `Validators` | validators.dfy | the CIDR filter and the advisory path check |
| `OsInfo` | osinfo.dfy | the os-release parser, the family classifier, detection |
| `Wizard` | wizard.dfy | the four section steps, the save-path default, the run |
| `CommandLine` | commandline.dfy | the resolved argument record, its parser defaults, the merge, the whole session |
| `Scenarios` | scenarios.dfy | concrete inputs from the repository's unit tests, worked through the model |

## Model

| member | source | states |
|---|---|---|
| Config.DefaultConfig | src/nids_configurator/app.py:20-45 | Name "MyNIDS", version 1 and enabled. All eight lists are empty. Mode is file. The log file is /var/log/nids/alerts.log, the syslog target is localhost:514, and the level is INFO. |
| Config.NewConfigurator | src/nids_configurator/app.py:13-17 | A new configurator holds the default record, the given config path and prompting mode, and no output path. |
| Config.ModeNameRoundTrip | src/nids_configurator/__main__.py:54 | The three logging-mode names and the mode enumeration convert both ways without loss. |
| Config.LevelNameRoundTrip | src/nids_configurator/__main__.py:63 | The four level names and the level enumeration convert both ways without loss. |
| Text.StripCharsSpec | src/nids_configurator/app.py:49 | Stripping removes exactly the run of stripped characters at each end. The result is a contiguous slice of the input with only stripped characters before and after it. It is empty iff every character is stripped. Otherwise it starts and ends with a kept character, and no other character of the input is lost. |
| Text.StripCharsCut | src/nids_configurator/app.py:49 | The stripped string is the slice between a prefix and a suffix made only of stripped characters. |
| Text.Contains | src/nids_configurator/osinfo.py:40-42 | Python's `needle in hay` holds iff `needle` occurs at some position of `hay`. |
| Text.ContainsKeepsChars | src/nids_configurator/osinfo.py:40-42 | A contained string uses only characters of the containing one. |
| Prompts.Ask | src/nids_configurator/app.py:57-65 | The re-prompt loop answers iff some line is accepted. It answers with the verdict on the first accepted line. All earlier lines were rejected, and the lines after it are left unread. |
| Prompts.PromptStr | src/nids_configurator/app.py:47-53 | Reads exactly one line, and answers iff a line is available. A non-blank trimmed line is the answer. A blank line gives the default when there is one. Without a default the answer is always the trimmed line, blank or not. A non-empty default never yields an empty answer. |
| Prompts.PromptStrLine | src/nids_configurator/app.py:47-53 | Asked part-way through a longer input, the string prompt with a default answers with the trimmed text of the last line it consumed, or the default when that line is blank. |
| Prompts.PromptYesNoSpec | src/nids_configurator/app.py:55-65 | Answers iff some line is blank, y, yes, n or no after trimming and lower-casing. The first such line decides: blank gives the default, y/yes true, n/no false. Every earlier line was rejected. |
| Prompts.PromptChoice | src/nids_configurator/app.py:67-78 | The answer is always one of the choices or the non-empty default. |
| Prompts.PromptChoiceSpec | src/nids_configurator/app.py:67-78 | Answers iff some line is acceptable. The first such line gives the answer: the default when it is blank and a non-empty default is offered, and otherwise its exact trimmed text, which is then one of the choices. Every earlier line named no choice, and none was blank while a default was offered. |
| Prompts.Collect | src/nids_configurator/app.py:83-88 | One pass reads the trimmed non-blank lines in order up to the first blank line, which it consumes. |
| Prompts.PromptList | src/nids_configurator/app.py:80-92 | With empty answers refused, the answer is never empty. |
| Prompts.RetryNeedsSameInput | src/nids_configurator/app.py:89-91 | A discarded empty pass consumed one blank line. The retry succeeds on the remaining lines iff the original lines held a non-blank line followed by a blank one. |
| Prompts.PromptListSpec | src/nids_configurator/app.py:80-92 | Answers iff the lines hold a blank line, or a non-blank line before a blank one when empty answers are refused. Only blank lines come before the final pass. The answer is that pass's trimmed lines in input order. An allowed empty answer stops at the first blank line. |
| Validators.ValidateCidrList | src/nids_configurator/app.py:94-105 | Kept entries are an order-preserving subsequence of the input and all parse under the version's predicate. Warned entries are exactly the others, unchanged. Kept plus warned is the input, as a multiset. |
| Validators.CidrKeptIffParses | src/nids_configurator/app.py:96-104 | An entry of the input is kept iff it parses. |
| Validators.CidrAllValidUnchanged | src/nids_configurator/app.py:94-105 | An input that parses entirely comes back unchanged, with no warning. |
| Validators.CidrNonFourIsSix | src/nids_configurator/app.py:98-101 | Any version other than 4 filters exactly as version 6 does. |
| Validators.ValidatePaths | src/nids_configurator/app.py:107-115 | The list is returned unchanged whatever exists. A path is warned about iff it does not exist, in input order, and once for every time it occurs in the list. |
| Wizard.ConfigureGeneral | src/nids_configurator/app.py:117-123 | Without prompting, nothing is read or changed. Otherwise only the general section changes, and the step answers iff a name line is available and the yes/no prompt on the lines after it answers. The name becomes the first line trimmed, or stays the same when that line is blank. The enabled flag is that yes/no prompt's answer, offered the old flag as default. The version is kept. |
| Wizard.ConfigureNetwork | src/nids_configurator/app.py:125-147 | Without prompting, nothing is read or changed. Otherwise only the network section changes. The step answers iff the five list prompts, each reading where the last stopped, all answer. The interfaces are the first (required) list. Each CIDR list is its own prompt's answer filtered by the CIDR check of its version. So the interfaces are non-empty, and every stored CIDR parses under its own version. |
| Wizard.NetworkListsAreTyped | src/nids_configurator/app.py:130-147 | The interfaces and each CIDR list are made of trimmed lines typed during the step, in typing order. |
| Wizard.ConfigureRules | src/nids_configurator/app.py:149-163 | Without prompting, nothing is read or changed. Otherwise only the rules section changes. The step answers iff the three list prompts, each reading where the last stopped, all answer. The rule paths are the first (required) list, kept whole by the path check, so non-empty. The enabled and disabled rule sets are the second and third answers, stored as typed. |
| Wizard.RulesListsAreTyped | src/nids_configurator/app.py:155-163 | Rule paths and both rule-set lists are made of lines typed during the step, in typing order. |
| Wizard.ConfigureLogging | src/nids_configurator/app.py:165-189 | Without prompting, nothing is read or changed. Otherwise only the logging section changes. The mode is the one the choice prompt names. The log file is asked only in file or both mode and the syslog target only in syslog or both mode, each offered the old value as default. The level is the last choice prompt's answer. The step answers iff every prompt asked answers. |
| Wizard.LoggingKeepsUnusedFields | src/nids_configurator/app.py:178-182 | Syslog mode keeps the old log file, and file mode keeps the old syslog target. |
| Wizard.SavePathDefault | src/nids_configurator/app.py:222-225 | The family names "ubuntu" and "rhel" get the configurator's path. Every other name gets ./nids-config.yml. |
| Wizard.SavePathByFamily | src/nids_configurator/app.py:222-225 | Among the detected families only Ubuntu gets the configurator's path. No family is named "rhel", so Red Hat hosts get ./nids-config.yml. |
| Wizard.Steps | src/nids_configurator/app.py:217-220 | The four section steps keep the version, the config path and the prompting mode. With prompting on, interfaces and rule paths end non-empty. With prompting off, nothing is read or changed. |
| Wizard.Run | src/nids_configurator/app.py:217-228 | A run answers iff the four steps answer and a line is left for the save path. Its configuration is the steps' result, and it reads exactly one line after them. Without prompting, a run reads exactly the save-path line and keeps the configuration. With prompting, interfaces and rule paths end non-empty. The version is never changed. The save path is the last line the run consumed, trimmed, or the family's default path when that line is blank. |
| Wizard.RunFollowsSteps | src/nids_configurator/app.py:217-228 | A run applies the general, network, rules and logging steps in that order, each on the lines the previous one left. It answers iff the logging step answers and a line is left, and it keeps the logging step's configuration and consumes one more line. |
| Wizard.RunAsksGeneralFirst | src/nids_configurator/app.py:117-123 | With prompting on, the run's name is the first line trimmed, or the configurator's name when that line is blank. Its enabled flag is the yes/no answer on the next lines, offered the configurator's flag as default. The later steps never change them. |
| Wizard.RunAsksLoggingFromStart | src/nids_configurator/app.py:165-189 | The logging step of a run starts from the configurator's logging section, untouched by the steps before it. The run's logging section is what that step makes of it. |
| Wizard.QuietRunSavesToFamilyDefault | src/nids_configurator/app.py:217-228 | A run without prompting whose one line is blank saves the configuration as given. The path is the configurator's on Ubuntu and ./nids-config.yml elsewhere. |
| CommandLine.ParserDefaults | src/nids_configurator/__main__.py:14-64 | With no arguments, the output path is absent, prompting is not suppressed, and every list option is absent (not empty). |
| CommandLine.ApplyArgs | src/nids_configurator/__main__.py:69-115 | The seven scalars are always taken from the arguments. Each list is replaced wholesale when given and kept otherwise. The output path is set only when given. Prompting can be switched off but never back on. The config path is kept. |
| CommandLine.ApplyArgsThen | src/nids_configurator/__main__.py:69-115 | Two merges in a row equal one merge of the combined arguments. |
| CommandLine.ApplyArgsIdempotent | src/nids_configurator/__main__.py:69-115 | Merging the same arguments twice equals merging them once. |
| CommandLine.ParserDefaultsChangeNothing | src/nids_configurator/__main__.py:17-64 | Arguments that are all parser defaults leave the configurator unchanged. |
| CommandLine.Session | src/nids_configurator/__main__.py:118-128 | With prompting switched off, the run answers iff a line is available. The saved configuration is then exactly the merged one. The version is always the argument's. With prompting on, the name prompt offers the argument's name as its default: a blank first line keeps it. The yes/no prompt offers the argument's enabled flag. |
| CommandLine.SessionLoggingStartsFromArguments | src/nids_configurator/__main__.py:124-128 | With prompting on, the logging step starts from the mode, log file, syslog target and level given as arguments, so its prompts offer them as defaults. The saved logging section is what that step makes of them. |
| OsInfo.FamilyName | src/nids_configurator/osinfo.py:39-43 | The family is always "ubuntu", "redhat" or "unknown". |
| OsInfo.ParseLine | src/nids_configurator/osinfo.py:22-27 | A line gives an entry iff it does not start with `#` and holds `=`. The key is the stripped line up to its first `=`. The value is the rest with surrounding quotes removed. |
| OsInfo.LastValue | src/nids_configurator/osinfo.py:19-27 | A key has a value iff some entry assigns it. The value is the one given by the last such entry. |
| OsInfo.LoadLastWins | src/nids_configurator/osinfo.py:22-27 | Loading entries into the dictionary one by one leaves each key with the last value assigned to it. |
| OsInfo.ParseOsRelease | src/nids_configurator/osinfo.py:19-27 | A key is in the parsed file iff some line assigns it. It holds the value of the last such line. |
| OsInfo.Classify | src/nids_configurator/osinfo.py:39-43 | Ubuntu iff "ubuntu" is a substring of ID or ID_LIKE. Otherwise Red Hat iff "rhel" is in either or "redhat" is in ID_LIKE. Otherwise unknown. |
| OsInfo.Detect | src/nids_configurator/osinfo.py:11-47 | A non-Linux system or a missing file gives unknown family with the platform's release. Otherwise the name is PRETTY_NAME or "Linux", the version VERSION_ID or "unknown", and the family classifies ID and ID_LIKE. |
| Scenarios.RequiredListRetries | tests/test_app.py:82-85 | Lines "", "item1", "" give ["item1"] when an empty list is refused. |
| Scenarios.YesNoRepromptsOnInvalid | tests/test_app.py:50-54 | Lines "invalid", "y" give true after two lines read. |
| Scenarios.ChoiceRepromptsOnInvalid | tests/test_app.py:66-69 | Lines "invalid", "opt1" give "opt1". |
| Scenarios.GeneralTakesTypedAnswers | tests/test_app.py:120-124 | Lines "TestNIDS", "y" name the NIDS TestNIDS and enable it. |
| Scenarios.RulesTakeTypedAnswers | tests/test_app.py:132-136 | Lines "/etc/rules", "", "ruleset1", "", "", "" give rule paths ["/etc/rules"], enabled sets ["ruleset1"], no disabled sets, and leave one line unread. |
| Scenarios.CidrDropsTheInvalidEntry | tests/test_app.py:97-100 | Only the unparsable middle entry is dropped and warned about. |
| Scenarios.CentosIdLine | tests/test_osinfo.py:56-67 | The line `ID="centos"` with its newline parses to the entry ("ID", "centos"). |
| Scenarios.CentosSavesLocally | tests/test_osinfo.py:56-67 | CentOS is classified Red Hat, yet is offered ./nids-config.yml. |
| Scenarios.RedhatIdAloneIsUnknown | src/nids_configurator/osinfo.py:40-43 | An ID of "redhat" with no ID_LIKE is of unknown family: "redhat" is only looked for in ID_LIKE. |

## Left out

- YAML serialisation and file writing (`save_config_yaml`), including the exit when PyYAML is missing. These are a foreign library and I/O. `Run` returns the configuration and the chosen path instead.
- Console output: the banner, section headers, warnings and prompt texts. The warnings are kept as data: `ValidateCidrList` and `ValidatePaths` return the entries warned about.
- The `os.geteuid` root check in `run` (app.py:213-215). Where `os.geteuid` exists (POSIX hosts) it only prints a warning. Where it does not exist, as on Windows, the call raises `AttributeError` before the first prompt, so the program crashes there. The model does not model that crash: its `Run` always goes on to the prompts.
- The argparse machinery: usage errors, the mutual exclusion of `--enable` and `--disable`, `--help`, and the rejection of values outside `choices=`. The resolved arguments are a record. Its mode and level fields are enumerations, so an out-of-range value cannot be represented.
- The grammar of `ipaddress.IPv4Network` / `IPv6Network` with `strict=False`. It is library code not visible here, so it is the abstract predicates `Host.isIPv4Network` and `Host.isIPv6Network`.
- `os.path.exists`: the abstract predicate `Host.pathExists`.
- `platform.system()`, `platform.release()` and opening `/etc/os-release`. They are the parameters of `Detect`. A missing file is `None`; other I/O errors, such as a permission error, are not modelled.
- Environment variables. No file of the program reads them, so the parser's defaults come from the configuration alone.
- `output_path`. The merge sets it, but saving never reads it, so the model gives it no further meaning.
- The console's end of input (`EOFError`). It is modelled as `None` from the prompts, not as an exception.
- Lower: lower-cases ASCII letters only, where Python's `str.lower` covers all of Unicode. The yes/no keys are ASCII, so no accepted line differs. A non-ASCII line that Python would lower-case into "y" or "n" is not one.
- Text.Strip: strips the characters for which Python's `str.isspace` holds, listed explicitly.
- PromptYesNo, PromptChoice and PromptList: their own contracts state only what every caller needs (the reply is a proper suffix of the input, the choice answer is a choice or the default, a required list is non-empty). The full characterisation is in `PromptYesNoSpec`, `PromptChoiceSpec` and `PromptListSpec`.
- PromptList: the retry after a refused empty answer is a recursive call (app.py:91). Python stops it with `RecursionError` after about 1000 refused empty passes in a row. The model retries without bound, so such an input gives an answer where the program crashes.
- The package-installation test in `deploy_test`. It checks a host installation, not program logic.

## Notes

- The save-path choice tests the family name against "ubuntu" and "rhel". Detection only ever produces "ubuntu", "redhat" or "unknown". So on Red Hat hosts the configurator's path is never proposed. The model keeps this as the code has it: `SavePathDefault` takes the name the code compares, and `SavePathByFamily` and `CentosSavesLocally` show the consequence.
- The merge comes before the prompts so that the prompts offer the merged values as defaults. That holds for the general and logging prompts. The list prompts offer no default, so with prompting on, list options given on the command line are replaced by the typed lists (see `ConfigureNetwork` and `ConfigureRules`, whose stored lists are the typed answers whatever the configurator held).
- Prompting switched off does not suppress the save-path prompt in `run`. The model keeps this too, so a non-interactive run still reads one line.
