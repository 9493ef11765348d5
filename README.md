# PyOxidizer manifest resolution, modelled in Dafny

PyOxidizer builds a single executable that embeds a Python interpreter. It reads a TOML
manifest whose sections each hold a list of entries, and every entry is tagged with a
`build_target`. `parse_config` resolves the manifest for one target triple into a `Config`:

- `[[build]]` gives the application name and build path.
- `[[python_distribution]]` gives the Python build to embed.
- `[[embedded_python_config]]` gives the interpreter settings.
- `[[packaging_rule]]` gives the packaging rules.
- `[[embedded_python_run]]` gives what the interpreter runs at start-up.
- `[[distribution]]` gives the installers to produce.

This project models that resolution and what it promises:

- The target filter: an entry applies when its target is `"all"` or exactly the requested one.
- Per-field "last applying entry wins" layering over explicit defaults.
- First-exact-match selection of the Python distribution.
- Validation that stops at the first error.
- The conversion of packaging rules and distributions, one for one and in order.
- The `install_location` parser.

Modules, one per file:

- `Results` (`results.dfy`): `Option` and `Result`.
- `Strings` (`strings.dfy`): `str::split`, `str::replace`, `str::starts_with` and `PathBuf::join` on relative components.
- `Layering` (`layering.dfy`): the target filter `Matches`, the layering function `LastSet` and the order-preserving filter `Applying`.
- `Manifest` (`manifest.dfy`): the deserialised input records, with serde defaults already applied.
- `Configuration` (`configuration.dfy`): the resolved output types, the error type `ConfigError` and `ResolveInstallLocation`.
- `Resolver` (`resolver.dfy`): the `[[build]]`, `[[python_distribution]]` and `[[embedded_python_config]]` steps. Each step is a specification function plus the loop that computes it.
- `Rules` (`rules.dfy`): the `[[packaging_rule]]`, `[[embedded_python_run]]` and `[[distribution]]` steps.
- `ConfigParser` (`parser.dfy`): `Resolve`, the whole resolution as a function, and the method `ParseConfig`, proved equal to it.
- `Properties` (`properties.dfy`): what resolution promises, stated on `Resolve`.

The source's loops over `builds`, `python_configs` and `python_run` become Dafny methods with the same running values and the same returns: `ResolveBuild` returns the missing-name error after its loop, and `ResolveInterpreter` returns early for each of the source's two errors, plus once more where the source panics. The body of the interpreter loop for one applying entry is the method `ApplyInterpreterEntry`. The packaging pass is an iterator whose closure sets two flags, so it also becomes a loop, `CollectPackaging`. Each method is proved equal to a function that folds or layers the entries. The pure conversions, which the source writes with iterators, stay functions.

Two behaviours of the source worth knowing:

- The Python distribution is matched by an exact `build_target == target` comparison (`config.rs:572`, `config.rs:587`), with no `"all"` wildcard. A manifest whose only distribution is declared for `"all"` therefore fails for target `"linux"` with `NoMatchingDistribution` (`Properties.ExampleDistributionForAllFails`). The same manifest with the distribution declared for `"linux"` resolves, keeping both packaging rules in order (`Properties.ExampleDistributionForTargetResolves`).
- Static terminfo takes its directories from the entry that says `static`, not from the running value (`config.rs:697`).

## Model

| member | source | states |
|---|---|---|
| Configuration.ResolveInstallLocation | pyoxidizer/src/pyrepackager/config.rs:502-512 | succeeds exactly for "embedded" and for strings starting with "app-relative:"; a success writes back to the same text (so the rest of the string is the path, empty included); a failure carries "invalid install_location: " followed by the value |
| Configuration.ResolveInstallLocationText | pyoxidizer/src/pyrepackager/config.rs:502-512 | round trip: every location's text parses back to that location, so "embedded" gives Embedded and "app-relative:" + p gives AppRelative(p) for every p |
| Strings.Split | pyoxidizer/src/pyrepackager/config.rs:663 | `str::split`: there is always at least one piece, two or more exactly when the separator occurs, and no piece contains it |
| Strings.JoinSplit | pyoxidizer/src/pyrepackager/config.rs:663 | splitting loses nothing: joining the pieces with the separator gives back the string |
| Strings.ReplaceAll | pyoxidizer/src/pyrepackager/config.rs:545-546 | `str::replace`: a string shorter than the pattern is unchanged; one that starts with the pattern comes out starting with the replacement; otherwise the first character is kept |
| Strings.ReplaceAbsent | pyoxidizer/src/pyrepackager/config.rs:545-546 | a string in which the pattern never occurs comes back unchanged |
| Strings.ReplaceLeading | pyoxidizer/src/pyrepackager/config.rs:545-546 | a leading occurrence is replaced, and the rest of the string is processed on its own |
| Strings.JoinPath | pyoxidizer/src/pyrepackager/config.rs:534 | the joined path starts with the base and ends with the component; a `/` is added between them exactly when the base is non-empty and does not already end with one, and nothing else is added |
| Resolver.BuildPathWithoutOrigin | pyoxidizer/src/pyrepackager/config.rs:545-546 | a declared build path that does not mention `$ORIGIN` is used as written |
| Resolver.BuildPathUnderOrigin | pyoxidizer/src/pyrepackager/config.rs:545-546 | a declared build path `$ORIGIN` + rest, with no other `$ORIGIN`, is the manifest's directory followed by rest |
| Layering.LastSetAppend | pyoxidizer/src/pyrepackager/config.rs:536-548 | an appended entry wins when it applies and sets the field; otherwise it leaves the running value alone, so an entry that omits a field never clears it |
| Layering.LastSetNone | pyoxidizer/src/pyrepackager/config.rs:536-548 | a field is unset exactly when no applying entry sets it |
| Layering.LastSetIsLast | pyoxidizer/src/pyrepackager/config.rs:536-548 | an applying entry that sets the field, with no later applying entry setting it, decides the value |
| Layering.LastSetWitness | pyoxidizer/src/pyrepackager/config.rs:628-712 | a set value always comes from an applying entry after which no applying entry sets the field |
| Layering.Applying | pyoxidizer/src/pyrepackager/config.rs:628-631 | the filter keeps only entries declared for "all" or for the target, and never yields more entries than it was given |
| Layering.ApplyingMembers | pyoxidizer/src/pyrepackager/config.rs:536-539 | an entry is kept exactly when it is in the list and applies to the target |
| Resolver.ResolveBuild | pyoxidizer/src/pyrepackager/config.rs:533-557 | the `[[build]]` loop computes the build settings: the name and the path (with `$ORIGIN` expanded) come from the last applying entry that sets them, the path defaults to `build` under the directory, and a missing name is MissingApplicationName |
| Resolver.FirstExactDistribution | pyoxidizer/src/pyrepackager/config.rs:563-598 | a chosen distribution is the conversion of some entry declared for exactly the target |
| Resolver.SelectPythonDistribution | pyoxidizer/src/pyrepackager/config.rs:559-606 | an empty list is NoDistributionSections; otherwise a failure is NoMatchingDistribution naming the target, and a success is the first exact match |
| Resolver.FirstExactIsFirst | pyoxidizer/src/pyrepackager/config.rs:563-597 | the first entry declared for exactly the target is chosen, whatever follows |
| Resolver.FirstExactNone | pyoxidizer/src/pyrepackager/config.rs:563-606 | no distribution is chosen exactly when no entry is declared for exactly the target ("all" does not count) |
| Resolver.EntryError | pyoxidizer/src/pyrepackager/config.rs:649-707 | an applying interpreter entry is accepted exactly when its optimize level is 0, 1 or 2, its encoding contains ':', and static terminfo comes with directories; an illegal level is reported first, with its value |
| Resolver.StdioEncodingAsWritten | pyoxidizer/src/pyrepackager/config.rs:662-666 | the source's reading of `stdio_encoding`, defined only when there are two pieces: the name and the error handler contain no ':', the string begins with name ':' errors, and the error handler runs up to the next ':' or to the end |
| Resolver.StdioEncodingAsWrittenFails | pyoxidizer/src/pyrepackager/config.rs:662-666 | "utf-8", which the manifest accepts, splits into a single piece, so the source's `values[1]` does not exist |
| Resolver.InterpreterSettingsPrefix | pyoxidizer/src/pyrepackager/config.rs:628-712 | each iteration of the interpreter loop is one more entry applied to the running settings, and an earlier error stays |
| Resolver.InterpreterErrorStays | pyoxidizer/src/pyrepackager/config.rs:649-707 | once an entry has failed, later entries do not change the outcome |
| Resolver.SettingIsLastSet | pyoxidizer/src/pyrepackager/config.rs:608-712 | a setting that each applying entry either gives or leaves alone ends up as the last applying entry's value, or its default |
| Resolver.OptionalSettingIsLastSet | pyoxidizer/src/pyrepackager/config.rs:613-614 | a setting that starts unset ends up as exactly the last applying entry's value, if any |
| Resolver.InterpreterOk | pyoxidizer/src/pyrepackager/config.rs:628-712 | the interpreter step succeeds exactly when no applying entry is bad; entries for other targets are never checked |
| Resolver.InterpreterFirstBad | pyoxidizer/src/pyrepackager/config.rs:628-712 | the error reported is that of the first bad applying entry |
| Resolver.InterpreterOptimizeLevel | pyoxidizer/src/pyrepackager/config.rs:648-660 | a successful interpreter step always ends with an optimize level of 0, 1 or 2 |
| Resolver.InterpreterTerminfoStatic | pyoxidizer/src/pyrepackager/config.rs:693-707 | static terminfo with directories d after a successful step comes from an applying entry that says static and carries d, with no later applying entry naming a terminfo mode |
| Resolver.ApplyInterpreterEntry | pyoxidizer/src/pyrepackager/config.rs:632-711 | one applying entry on the running settings: the entry's error when it is bad, otherwise the running settings with every setting the entry gives replaced |
| Resolver.ResolveInterpreter | pyoxidizer/src/pyrepackager/config.rs:608-712 | the interpreter loop, starting from the target's defaults, computes the fold of the entries, stopping at the first bad applying entry |
| Rules.Location | pyoxidizer/src/pyrepackager/config.rs:745-752 | a parsed install location writes back to its text, and a rejected one becomes InvalidInstallLocation carrying the parser's message |
| Rules.ConvertRule | pyoxidizer/src/pyrepackager/config.rs:717-946 | a rule for another target gives nothing; an applying rule fails exactly when it carries an install location that does not parse, with the message naming the value; otherwise the resolved rule has the entry's kind and tag and all its data (its declaration is the entry itself) |
| Rules.ConvertDeclaration | pyoxidizer/src/pyrepackager/config.rs:717-946 | round trip: the declaration of any resolved rule, for an applying target, converts back to that rule |
| Rules.ConvertRulesOk | pyoxidizer/src/pyrepackager/config.rs:717-951 | the rule list converts exactly when no applying rule has a bad install location; rules for other targets are never parsed |
| Rules.ConvertRulesFirstError | pyoxidizer/src/pyrepackager/config.rs:717-951 | the error is that of the first applying rule with a bad install location |
| Rules.ConvertRulesApplying | pyoxidizer/src/pyrepackager/config.rs:717-951 | the converted list has one element per applying rule, in declaration order, each the conversion of that rule |
| Rules.DeclaresStdlibResolved | pyoxidizer/src/pyrepackager/config.rs:828-845 | after a successful conversion, an applying `stdlib` rule exists exactly when the resolved list contains one |
| Rules.DeclaresPolicyResolved | pyoxidizer/src/pyrepackager/config.rs:876-889 | after a successful conversion, an applying `stdlib-extensions-policy` rule exists exactly when the resolved list contains one |
| Rules.CollectPackaging | pyoxidizer/src/pyrepackager/config.rs:714-951 | the packaging pass computes the converted list, and on success its two flags say exactly whether an applying `stdlib-extensions-policy` and `stdlib` rule exists |
| Rules.ConvertRulesPrefix | pyoxidizer/src/pyrepackager/config.rs:717-951 | each rule converted extends the resolved list or ends the pass with its error |
| Rules.DeclaresPrefix | pyoxidizer/src/pyrepackager/config.rs:834-884 | a flag is set after a rule exactly when it was set before or the rule is an applying rule of that kind |
| Rules.ConvertRulesStays | pyoxidizer/src/pyrepackager/config.rs:717-951 | the first failing rule ends the pass, so later rules do not change the outcome |
| Rules.ResolveRun | pyoxidizer/src/pyrepackager/config.rs:963-1008 | the run loop computes the mode of the last applying entry, or Noop |
| Rules.RunIsLastApplying | pyoxidizer/src/pyrepackager/config.rs:963-1008 | the mode is that of the last applying `[[embedded_python_run]]` entry |
| Rules.RunDefault | pyoxidizer/src/pyrepackager/config.rs:963 | with no applying entry the mode is Noop |
| Rules.DistributionRoundTrip | pyoxidizer/src/pyrepackager/config.rs:1015-1044 | converting a `[[distribution]]` entry loses only its target, and writing a resolved one back loses nothing |
| Rules.DistributionsFor | pyoxidizer/src/pyrepackager/config.rs:1012-1054 | the resolved distributions are the applying entries, converted, one for one and in order |
| ConfigParser.ParseConfig | pyoxidizer/src/pyrepackager/config.rs:518-1079 | the resolver, step by step with its early returns, computes the resolution `Resolve` |
| Properties.ResolveSucceeds | pyoxidizer/src/pyrepackager/config.rs:518-1079 | resolution succeeds exactly when the following all hold:<br>- an applying build entry names the application;<br>- a distribution is declared for exactly the target;<br>- no applying interpreter entry is bad;<br>- no applying rule has a bad install location;<br>- an applying `stdlib-extensions-policy` rule and an applying `stdlib` rule exist.<br>The run and distribution steps never fail |
| Properties.EarlyErrors | pyoxidizer/src/pyrepackager/config.rs:550-606 | a missing application name is reported first, then an empty distribution list, then the lack of a distribution for the target, naming it |
| Properties.InterpreterEntryFails | pyoxidizer/src/pyrepackager/config.rs:649-707 | the first bad interpreter entry decides the error: an illegal optimize level with its value, else an encoding without ':', else static terminfo without directories |
| Properties.InstallLocationFails | pyoxidizer/src/pyrepackager/config.rs:717-951 | after the interpreter step, the first applying rule with a bad install location decides the error, which names the value |
| Properties.MissingRuleFails | pyoxidizer/src/pyrepackager/config.rs:953-961 | a missing `stdlib-extensions-policy` rule is reported before a missing `stdlib` rule |
| Properties.ApplicationNameIsLastSet | pyoxidizer/src/pyrepackager/config.rs:536-543 | the application name is that of the last applying build entry that gives one |
| Properties.BuildPathIsLastSet | pyoxidizer/src/pyrepackager/config.rs:536-548 | the build path is the last applying entry's, with every `$ORIGIN` replaced by the manifest's directory |
| Properties.BuildPathDefault | pyoxidizer/src/pyrepackager/config.rs:534 | with no applying entry giving one, the build path is `build` under the manifest's directory |
| Properties.DistributionIsFirstExact | pyoxidizer/src/pyrepackager/config.rs:563-597 | the resolved distribution is the first one declared for exactly the target; later ones never appear |
| Properties.InterpreterFlagsLastSet | pyoxidizer/src/pyrepackager/config.rs:608-687 | each boolean interpreter setting is the last applying entry's value, or its default (true for the first four, false for the rest) |
| Properties.InterpreterValuesLastSet | pyoxidizer/src/pyrepackager/config.rs:608-711 | the optimize level, `sys.path` list, allocator, terminfo mode, encoding name, encoding error handler and modules-directory variable are each the last applying entry's value, or their default |
| Properties.RawAllocatorDefault | pyoxidizer/src/pyrepackager/config.rs:620-624 | with no applying entry naming one, the allocator is System exactly for "x86_64-pc-windows-msvc" and Jemalloc exactly otherwise |
| Properties.OptimizeLevelLegal | pyoxidizer/src/pyrepackager/config.rs:648-660 | a resolved configuration always has an optimize level of 0, 1 or 2 |
| Properties.TerminfoStaticFromLastEntry | pyoxidizer/src/pyrepackager/config.rs:693-707 | resolved static terminfo with directories d comes from an applying entry that says static and carries d itself, and no later applying entry sets a terminfo mode |
| Properties.FilesystemImporterFlag | pyoxidizer/src/pyrepackager/config.rs:1010 | the filesystem importer is the last applying entry's flag (default off), or on whenever there are extra `sys.path` entries |
| Properties.PackagingIsApplyingRules | pyoxidizer/src/pyrepackager/config.rs:714-961 | the resolved packaging rules are the applying entries, one for one and in order, each with its kind and data, and they include a `stdlib` and a `stdlib-extensions-policy` rule |
| Properties.RunIsLastEntry | pyoxidizer/src/pyrepackager/config.rs:963-1008 | the resolved run mode is that of the last applying entry |
| Properties.RunNoopDefault | pyoxidizer/src/pyrepackager/config.rs:963 | with no applying run entry the resolved mode is Noop |
| Properties.DistributionsAreApplyingEntries | pyoxidizer/src/pyrepackager/config.rs:1012-1054 | the resolved distributions are the applying entries, one for one and in order, each losing only its target |
| Properties.FirstExactAppend | pyoxidizer/src/pyrepackager/config.rs:563-597 | a distribution declared for another target never changes which one is chosen |
| Properties.OtherRuleIgnored | pyoxidizer/src/pyrepackager/config.rs:717-951 | a packaging rule for another target changes neither the converted rules nor whether a `stdlib` or `stdlib-extensions-policy` rule is declared |
| Properties.OtherBuildIgnored | pyoxidizer/src/pyrepackager/config.rs:536-548 | a `[[build]]` entry for another target changes neither the name nor the path |
| Properties.OtherInterpreterEntryIgnored | pyoxidizer/src/pyrepackager/config.rs:628-632 | an `[[embedded_python_config]]` entry for another target is neither checked nor applied |
| Properties.OtherRunIgnored | pyoxidizer/src/pyrepackager/config.rs:963-1008 | an `[[embedded_python_run]]` entry for another target leaves the mode alone |
| Properties.OtherDistributionIgnored | pyoxidizer/src/pyrepackager/config.rs:1012-1054 | a `[[distribution]]` entry for another target is not collected |
| Properties.ResolveFromSteps | pyoxidizer/src/pyrepackager/config.rs:518-1079 | resolution depends on the manifest only through the results of its steps |
| Properties.OtherTargetIgnored | pyoxidizer/src/pyrepackager/config.rs:518-1079 | appending an entry for another target to every list changes nothing, provided some Python distribution was declared |
| Properties.ExampleDistributionForAllFails | pyoxidizer/src/pyrepackager/config.rs:563-606 | a small manifest whose distribution is declared for "all" fails for "linux" with NoMatchingDistribution("linux") |
| Properties.ExampleDistributionForTargetResolves | pyoxidizer/src/pyrepackager/config.rs:518-1079 | the same manifest with its distribution declared for "linux" resolves with both packaging rules in declaration order, the default build path, Jemalloc and Noop |
| Properties.StdioEncodingWithoutSeparatorRejected | pyoxidizer/src/pyrepackager/config.rs:662-666 | an applying entry with encoding "utf-8" makes the interpreter step fail with InvalidStdioEncoding("utf-8") |

## Left out

- TOML deserialisation (`config.rs:519-522`) is not modelled, including serde's tagged-enum dispatch. The input is the deserialised `ParsedConfig` with every serde default (`ALL`, `TRUE`, `ZERO`, `EMBEDDED`, empty map and list) already applied.
- Finding the manifest's parent directory and canonicalising it (`config.rs:524-531`) touch the filesystem. `origin` is a parameter, and the errors of that step are not modelled.
- `parse_config_file` (`config.rs:1081-1095`) is file I/O plus message wrapping and is not modelled.
- Error messages are `ConfigError` constructors that carry the offending value, not the source's formatted strings. The one exception is the install-location message, which keeps the parser's text.
- Paths are strings. `PathBuf::join` is modelled only for the relative component `build`. `PathBuf::from` is the identity.
- Strings.JoinPath: uses `/`, as on a Unix host; on Windows `PathBuf::join` uses `\`.
- `optimize_level` is an `i64` in the manifest and an unbounded `int` here. The source only compares it against 0, 1 and 2, so width does not matter. Packaging rules copy their own `optimize_level` unchecked, as in the source.
- `extra_env` is an opaque `map<string, string>` that is only copied.
- The `distributions` step collects into a `Result` that can never be an error, so it is modelled as a plain list.
- `TerminfoResolution::None` and `ConfigTerminfoResolution::None` are named `NoResolution`, to keep them apart from `Option.None`.
- `Resolver.EntryError`: an encoding without ':' is the error `InvalidStdioEncoding`, where the source panics on the missing second piece (see Findings).
- `Rules.CollectPackaging`: the two flags are stated only for a successful conversion. After an error the source returns without reading them.
- `pyembed/src/python_resource_collector.rs` is not part of this model. It is a Python class binding with `RefCell` borrowing. It reads the running interpreter's cache tag, and it hands policy parsing and resource placement to the `python_packaging` crate, which is not available.

## Findings

| source | as written | input that shows it | evidently intended | confidence | as-written member | corrected member |
|---|---|---|---|---|---|---|
| pyoxidizer/src/pyrepackager/config.rs:662-666 | `stdio_encoding` is split on ':' and `values[1]` is read without a length check | an applying `[[embedded_python_config]]` entry with `stdio_encoding = "utf-8"` | reject an encoding without ':' with an error naming it | high (not executed) | Resolver.StdioEncodingAsWritten, Resolver.StdioEncodingAsWrittenFails | Resolver.EntryError, Properties.StdioEncodingWithoutSeparatorRejected |
