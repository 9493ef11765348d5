/** What resolution promises, stated on `Resolve` in terms of the manifest entries. */
module Properties {
  import opened Results
  import opened Strings
  import opened Layering
  import opened Manifest
  import opened Configuration
  import opened Resolver
  import opened Rules
  import opened ConfigParser

  /** Some applying `[[build]]` entry names the application. */
  predicate NamesApplication(builds: seq<ConfigBuild>, target: string) {
    exists i :: 0 <= i < |builds| && Sets(builds[i], BuildTargetOf, target, ApplicationNameOf)
  }

  /** Some `[[python_distribution]]` entry is declared for exactly this target. */
  predicate HasDistributionFor(ds: seq<ConfigPythonDistribution>, target: string) {
    exists i :: 0 <= i < |ds| && ds[i].buildTarget == target
  }

  /** No applying `[[embedded_python_config]]` entry is bad. */
  predicate InterpreterEntriesValid(cfgs: seq<ConfigPython>, target: string) {
    forall i :: 0 <= i < |cfgs| && Matches(cfgs[i].buildTarget, target) ==> EntryError(cfgs[i]).None?
  }

  /** No applying `[[packaging_rule]]` entry has a bad install location. */
  predicate InstallLocationsValid(rules: seq<ConfigPythonPackaging>, target: string) {
    forall i :: 0 <= i < |rules| ==> !InvalidRule(rules[i], target)
  }

  // ---------------------------------------------------------------------------------------
  // Success and the order of the errors

  /** Resolution succeeds exactly when every step does; the `[[embedded_python_run]]` and
      `[[distribution]]` steps never fail. */
  lemma ResolveSucceeds(parsed: ParsedConfig, configPath: string, origin: string, target: string)
    ensures Resolve(parsed, configPath, origin, target).Ok? <==>
      && NamesApplication(parsed.builds, target)
      && HasDistributionFor(parsed.pythonDistributions, target)
      && InterpreterEntriesValid(parsed.pythonConfigs, target)
      && InstallLocationsValid(parsed.packagingRules, target)
      && DeclaresExtensionsPolicy(parsed.packagingRules, target)
      && DeclaresStdlib(parsed.packagingRules, target)
  {
    LastSetNone(parsed.builds, BuildTargetOf, target, ApplicationNameOf);
    FirstExactNone(parsed.pythonDistributions, target);
    InterpreterOk(parsed.pythonConfigs, target);
    ConvertRulesOk(parsed.packagingRules, target);
  }

  /** The build and distribution errors come first, in that order. */
  lemma EarlyErrors(parsed: ParsedConfig, configPath: string, origin: string, target: string)
    ensures !NamesApplication(parsed.builds, target)
        ==> Resolve(parsed, configPath, origin, target) == Err(MissingApplicationName)
    ensures NamesApplication(parsed.builds, target) && parsed.pythonDistributions == []
        ==> Resolve(parsed, configPath, origin, target) == Err(NoDistributionSections)
    ensures NamesApplication(parsed.builds, target) && parsed.pythonDistributions != []
            && !HasDistributionFor(parsed.pythonDistributions, target)
        ==> Resolve(parsed, configPath, origin, target) == Err(NoMatchingDistribution(target))
  {
    LastSetNone(parsed.builds, BuildTargetOf, target, ApplicationNameOf);
    FirstExactNone(parsed.pythonDistributions, target);
  }

  /** Next, the first bad interpreter entry decides the error: an illegal optimize level,
      then an encoding without a separator, then static terminfo without directories. */
  lemma InterpreterEntryFails(parsed: ParsedConfig, configPath: string, origin: string, target: string, i: nat)
    requires NamesApplication(parsed.builds, target) && HasDistributionFor(parsed.pythonDistributions, target)
    requires i < |parsed.pythonConfigs| && Matches(parsed.pythonConfigs[i].buildTarget, target)
    requires EntryError(parsed.pythonConfigs[i]).Some?
    requires forall j :: 0 <= j < i && Matches(parsed.pythonConfigs[j].buildTarget, target)
                         ==> EntryError(parsed.pythonConfigs[j]).None?
    ensures var c := parsed.pythonConfigs[i];
      && (c.optimizeLevel.Some? && !ValidOptimizeLevel(c.optimizeLevel.value)
          ==> Resolve(parsed, configPath, origin, target) == Err(InvalidOptimizeLevel(c.optimizeLevel.value)))
      && ((c.optimizeLevel.Some? ==> ValidOptimizeLevel(c.optimizeLevel.value))
          && c.stdioEncoding.Some? && EncodingSeparator !in c.stdioEncoding.value
          ==> Resolve(parsed, configPath, origin, target) == Err(InvalidStdioEncoding(c.stdioEncoding.value)))
      && ((c.optimizeLevel.Some? ==> ValidOptimizeLevel(c.optimizeLevel.value))
          && (c.stdioEncoding.Some? ==> EncodingSeparator in c.stdioEncoding.value)
          ==> Resolve(parsed, configPath, origin, target) == Err(TerminfoDirsRequired))
  {
    LastSetNone(parsed.builds, BuildTargetOf, target, ApplicationNameOf);
    FirstExactNone(parsed.pythonDistributions, target);
    InterpreterFirstBad(parsed.pythonConfigs, target, i);
  }

  /** Next, the first applying packaging rule with a bad install location decides the error,
      which names the rejected value. */
  lemma InstallLocationFails(parsed: ParsedConfig, configPath: string, origin: string, target: string, i: nat)
    requires NamesApplication(parsed.builds, target) && HasDistributionFor(parsed.pythonDistributions, target)
    requires InterpreterEntriesValid(parsed.pythonConfigs, target)
    requires i < |parsed.packagingRules| && InvalidRule(parsed.packagingRules[i], target)
    requires forall j :: 0 <= j < i ==> !InvalidRule(parsed.packagingRules[j], target)
    ensures Resolve(parsed, configPath, origin, target)
         == Err(InvalidInstallLocation("invalid install_location: " + parsed.packagingRules[i].installLocation))
  {
    LastSetNone(parsed.builds, BuildTargetOf, target, ApplicationNameOf);
    FirstExactNone(parsed.pythonDistributions, target);
    InterpreterOk(parsed.pythonConfigs, target);
    ConvertRulesFirstError(parsed.packagingRules, target, i);
  }

  /** Last, a missing `stdlib-extensions-policy` rule is reported, and only then a missing
      `stdlib` rule. */
  lemma MissingRuleFails(parsed: ParsedConfig, configPath: string, origin: string, target: string)
    requires NamesApplication(parsed.builds, target) && HasDistributionFor(parsed.pythonDistributions, target)
    requires InterpreterEntriesValid(parsed.pythonConfigs, target)
    requires InstallLocationsValid(parsed.packagingRules, target)
    ensures !DeclaresExtensionsPolicy(parsed.packagingRules, target)
        ==> Resolve(parsed, configPath, origin, target) == Err(MissingStdlibExtensionsPolicy)
    ensures DeclaresExtensionsPolicy(parsed.packagingRules, target) && !DeclaresStdlib(parsed.packagingRules, target)
        ==> Resolve(parsed, configPath, origin, target) == Err(MissingStdlibRule)
  {
    LastSetNone(parsed.builds, BuildTargetOf, target, ApplicationNameOf);
    FirstExactNone(parsed.pythonDistributions, target);
    InterpreterOk(parsed.pythonConfigs, target);
    ConvertRulesOk(parsed.packagingRules, target);
  }

  // ---------------------------------------------------------------------------------------
  // Build settings and distribution

  /** The application name is that of the last applying entry that gives one. */
  lemma ApplicationNameIsLastSet(parsed: ParsedConfig, configPath: string, origin: string, target: string, i: nat)
    requires i < |parsed.builds| && Sets(parsed.builds[i], BuildTargetOf, target, ApplicationNameOf)
    requires forall j :: i < j < |parsed.builds| ==> !Sets(parsed.builds[j], BuildTargetOf, target, ApplicationNameOf)
    ensures Resolve(parsed, configPath, origin, target).Ok?
        ==> Resolve(parsed, configPath, origin, target).value.buildConfig.applicationName
            == parsed.builds[i].applicationName.value
  {
    LastSetIsLast(parsed.builds, i, BuildTargetOf, target, ApplicationNameOf);
  }

  /** The build path is the last applying entry's, with every `$ORIGIN` replaced by the
      manifest's directory. */
  lemma BuildPathIsLastSet(parsed: ParsedConfig, configPath: string, origin: string, target: string, i: nat)
    requires i < |parsed.builds| && Sets(parsed.builds[i], BuildTargetOf, target, BuildPathOf)
    requires forall j :: i < j < |parsed.builds| ==> !Sets(parsed.builds[j], BuildTargetOf, target, BuildPathOf)
    ensures Resolve(parsed, configPath, origin, target).Ok?
        ==> Resolve(parsed, configPath, origin, target).value.buildConfig.buildPath
            == ReplaceAll(parsed.builds[i].buildPath.value, OriginToken, origin)
  {
    LastSetIsLast(parsed.builds, i, BuildTargetOf, target, BuildPathOf);
  }

  /** With no applying entry giving a path, the build path is `build` under the manifest's
      directory. */
  lemma BuildPathDefault(parsed: ParsedConfig, configPath: string, origin: string, target: string)
    requires forall j :: 0 <= j < |parsed.builds| ==> !Sets(parsed.builds[j], BuildTargetOf, target, BuildPathOf)
    ensures Resolve(parsed, configPath, origin, target).Ok?
        ==> Resolve(parsed, configPath, origin, target).value.buildConfig.buildPath == JoinPath(origin, "build")
  {
    LastSetNone(parsed.builds, BuildTargetOf, target, BuildPathOf);
  }

  /** The Python distribution is the first one declared for exactly the target; an entry for
      "all" is not a candidate. */
  lemma DistributionIsFirstExact(parsed: ParsedConfig, configPath: string, origin: string, target: string, i: nat)
    requires i < |parsed.pythonDistributions| && parsed.pythonDistributions[i].buildTarget == target
    requires forall j :: 0 <= j < i ==> parsed.pythonDistributions[j].buildTarget != target
    ensures Resolve(parsed, configPath, origin, target).Ok?
        ==> Resolve(parsed, configPath, origin, target).value.pythonDistribution
            == PythonDistributionOf(parsed.pythonDistributions[i])
  {
    FirstExactIsFirst(parsed.pythonDistributions, target, i);
  }

  // ---------------------------------------------------------------------------------------
  // Interpreter settings

  /** Each flag is the last applying entry's value for it, or its default. */
  lemma InterpreterFlagsLastSet(parsed: ParsedConfig, configPath: string, origin: string, target: string)
    ensures Resolve(parsed, configPath, origin, target).Ok? ==>
      var c := Resolve(parsed, configPath, origin, target).value;
      var cfgs := parsed.pythonConfigs;
      && c.dontWriteBytecode == LastSet(cfgs, PythonTargetOf, target, DontWriteBytecodeOf).GetOr(true)
      && c.ignoreEnvironment == LastSet(cfgs, PythonTargetOf, target, IgnoreEnvironmentOf).GetOr(true)
      && c.noSite == LastSet(cfgs, PythonTargetOf, target, NoSiteOf).GetOr(true)
      && c.noUserSiteDirectory == LastSet(cfgs, PythonTargetOf, target, NoUserSiteDirectoryOf).GetOr(true)
      && c.unbufferedStdio == LastSet(cfgs, PythonTargetOf, target, UnbufferedStdioOf).GetOr(false)
      && c.sysFrozen == LastSet(cfgs, PythonTargetOf, target, SysFrozenOf).GetOr(false)
      && c.sysMeipass == LastSet(cfgs, PythonTargetOf, target, SysMeipassOf).GetOr(false)
  {
    var cfgs := parsed.pythonConfigs;
    if Resolve(parsed, configPath, origin, target).Ok? {
      SettingIsLastSet(cfgs, target, (s: InterpreterSettings) => s.dontWriteBytecode, DontWriteBytecodeOf);
      SettingIsLastSet(cfgs, target, (s: InterpreterSettings) => s.ignoreEnvironment, IgnoreEnvironmentOf);
      SettingIsLastSet(cfgs, target, (s: InterpreterSettings) => s.noSite, NoSiteOf);
      SettingIsLastSet(cfgs, target, (s: InterpreterSettings) => s.noUserSiteDirectory, NoUserSiteDirectoryOf);
      SettingIsLastSet(cfgs, target, (s: InterpreterSettings) => s.unbufferedStdio, UnbufferedStdioOf);
      SettingIsLastSet(cfgs, target, (s: InterpreterSettings) => s.sysFrozen, SysFrozenOf);
      SettingIsLastSet(cfgs, target, (s: InterpreterSettings) => s.sysMeipass, SysMeipassOf);
    }
  }

  /** The other settings follow the same rule; the encoding name and error handler are the
      pieces of the last applying encoding, and the modules-directory variable is the last
      one given, each unset when no entry gives one. */
  lemma InterpreterValuesLastSet(parsed: ParsedConfig, configPath: string, origin: string, target: string)
    ensures Resolve(parsed, configPath, origin, target).Ok? ==>
      var c := Resolve(parsed, configPath, origin, target).value;
      var cfgs := parsed.pythonConfigs;
      && c.optimizeLevel == LastSet(cfgs, PythonTargetOf, target, OptimizeLevelOf).GetOr(0)
      && c.sysPaths == LastSet(cfgs, PythonTargetOf, target, SysPathsOf).GetOr([])
      && c.rawAllocator == LastSet(cfgs, PythonTargetOf, target, RawAllocatorOf).GetOr(DefaultRawAllocator(target))
      && c.terminfoResolution == LastSet(cfgs, PythonTargetOf, target, TerminfoOf).GetOr(TerminfoResolution.Dynamic)
      && c.stdioEncodingName == LastSet(cfgs, PythonTargetOf, target, StdioEncodingNameOf)
      && c.stdioEncodingErrors == LastSet(cfgs, PythonTargetOf, target, StdioEncodingErrorsOf)
      && c.writeModulesDirectoryEnv == LastSet(cfgs, PythonTargetOf, target, WriteModulesDirectoryEnvOf)
  {
    var cfgs := parsed.pythonConfigs;
    if Resolve(parsed, configPath, origin, target).Ok? {
      SettingIsLastSet(cfgs, target, (s: InterpreterSettings) => s.optimizeLevel, OptimizeLevelOf);
      SettingIsLastSet(cfgs, target, (s: InterpreterSettings) => s.sysPaths, SysPathsOf);
      SettingIsLastSet(cfgs, target, (s: InterpreterSettings) => s.rawAllocator, RawAllocatorOf);
      SettingIsLastSet(cfgs, target, (s: InterpreterSettings) => s.terminfoResolution, TerminfoOf);
      OptionalSettingIsLastSet(cfgs, target, (s: InterpreterSettings) => s.stdioEncodingName, StdioEncodingNameOf);
      OptionalSettingIsLastSet(cfgs, target, (s: InterpreterSettings) => s.stdioEncodingErrors, StdioEncodingErrorsOf);
      OptionalSettingIsLastSet(cfgs, target, (s: InterpreterSettings) => s.writeModulesDirectoryEnv, WriteModulesDirectoryEnvOf);
    }
  }

  /** Without an applying entry that names one, the allocator is the system one exactly for
      the Windows MSVC target and jemalloc otherwise. */
  lemma RawAllocatorDefault(parsed: ParsedConfig, configPath: string, origin: string, target: string)
    requires forall i :: 0 <= i < |parsed.pythonConfigs| ==> !Sets(parsed.pythonConfigs[i], PythonTargetOf, target, RawAllocatorOf)
    ensures Resolve(parsed, configPath, origin, target).Ok? ==>
      var a := Resolve(parsed, configPath, origin, target).value.rawAllocator;
      && (a == System <==> target == WindowsMsvcTarget)
      && (a == Jemalloc <==> target != WindowsMsvcTarget)
  {
    InterpreterValuesLastSet(parsed, configPath, origin, target);
    LastSetNone(parsed.pythonConfigs, PythonTargetOf, target, RawAllocatorOf);
  }

  /** A resolved configuration always has an optimize level of 0, 1 or 2. */
  lemma OptimizeLevelLegal(parsed: ParsedConfig, configPath: string, origin: string, target: string)
    ensures Resolve(parsed, configPath, origin, target).Ok?
        ==> ValidOptimizeLevel(Resolve(parsed, configPath, origin, target).value.optimizeLevel)
  {
    if Resolve(parsed, configPath, origin, target).Ok? {
      InterpreterOptimizeLevel(parsed.pythonConfigs, target);
    }
  }

  /** Static terminfo with directories `d` comes from an applying entry that says static and
      carries `d` itself, after which no applying entry sets a terminfo mode. */
  lemma TerminfoStaticFromLastEntry(parsed: ParsedConfig, configPath: string, origin: string, target: string, d: string)
    requires Resolve(parsed, configPath, origin, target).Ok?
    requires Resolve(parsed, configPath, origin, target).value.terminfoResolution == TerminfoResolution.Static(d)
    ensures exists i :: (0 <= i < |parsed.pythonConfigs| && Matches(parsed.pythonConfigs[i].buildTarget, target)
      && parsed.pythonConfigs[i].terminfoResolution == Some(ConfigTerminfoResolution.Static)
      && parsed.pythonConfigs[i].terminfoDirs == Some(d)
      && forall j :: i < j < |parsed.pythonConfigs| && Matches(parsed.pythonConfigs[j].buildTarget, target)
                     ==> parsed.pythonConfigs[j].terminfoResolution.None?)
  {
    InterpreterTerminfoStatic(parsed.pythonConfigs, target, d);
  }

  /** The filesystem importer is on when the last applying entry turns it on, and whenever
      there are extra `sys.path` entries. */
  lemma FilesystemImporterFlag(parsed: ParsedConfig, configPath: string, origin: string, target: string)
    ensures Resolve(parsed, configPath, origin, target).Ok? ==>
      var c := Resolve(parsed, configPath, origin, target).value;
      c.filesystemImporter
      == (LastSet(parsed.pythonConfigs, PythonTargetOf, target, FilesystemImporterOf).GetOr(false) || |c.sysPaths| > 0)
  {
    if Resolve(parsed, configPath, origin, target).Ok? {
      SettingIsLastSet(parsed.pythonConfigs, target, (s: InterpreterSettings) => s.filesystemImporter, FilesystemImporterOf);
    }
  }

  // ---------------------------------------------------------------------------------------
  // Rule lists and run mode

  /** The packaging rules are the applying entries, one for one and in declaration order,
      each with its kind and data; among them are a `stdlib` and a
      `stdlib-extensions-policy` rule. */
  lemma PackagingIsApplyingRules(parsed: ParsedConfig, configPath: string, origin: string, target: string)
    ensures Resolve(parsed, configPath, origin, target).Ok? ==>
      var out := Resolve(parsed, configPath, origin, target).value.pythonPackaging;
      var rules := Applying(parsed.packagingRules, RuleTargetOf, target);
      && |out| == |rules|
      && (forall k :: 0 <= k < |out| ==> Declaration(out[k], rules[k].buildTarget) == rules[k])
      && (exists k :: 0 <= k < |out| && out[k].Stdlib?)
      && (exists k :: 0 <= k < |out| && out[k].StdlibExtensionsPolicy?)
  {
    if Resolve(parsed, configPath, origin, target).Ok? {
      ConvertRulesApplying(parsed.packagingRules, target);
      DeclaresStdlibResolved(parsed.packagingRules, target);
      DeclaresPolicyResolved(parsed.packagingRules, target);
    }
  }

  /** The run mode is that of the last applying entry. */
  lemma RunIsLastEntry(parsed: ParsedConfig, configPath: string, origin: string, target: string, i: nat)
    requires i < |parsed.pythonRun| && Matches(parsed.pythonRun[i].buildTarget, target)
    requires forall j :: i < j < |parsed.pythonRun| ==> !Matches(parsed.pythonRun[j].buildTarget, target)
    ensures Resolve(parsed, configPath, origin, target).Ok?
        ==> Resolve(parsed, configPath, origin, target).value.run == RunModeOf(parsed.pythonRun[i])
  {
    RunIsLastApplying(parsed.pythonRun, target, i);
  }

  /** With no applying entry the interpreter does nothing. */
  lemma RunNoopDefault(parsed: ParsedConfig, configPath: string, origin: string, target: string)
    requires forall j :: 0 <= j < |parsed.pythonRun| ==> !Matches(parsed.pythonRun[j].buildTarget, target)
    ensures Resolve(parsed, configPath, origin, target).Ok?
        ==> Resolve(parsed, configPath, origin, target).value.run == RunMode.Noop
  {
    RunDefault(parsed.pythonRun, target);
  }

  /** The distributions are the applying entries, one for one and in order, each losing only
      its target. */
  lemma DistributionsAreApplyingEntries(parsed: ParsedConfig, configPath: string, origin: string, target: string)
    ensures Resolve(parsed, configPath, origin, target).Ok? ==>
      var out := Resolve(parsed, configPath, origin, target).value.distributions;
      var ds := Applying(parsed.distributions, DistributionTargetOf, target);
      && |out| == |ds|
      && forall k :: 0 <= k < |out| ==> DistributionDeclaration(out[k], ds[k].buildTarget) == ds[k]
  {
  }

  // ---------------------------------------------------------------------------------------
  // Entries for other targets

  /** A distribution declared for another target never changes which one is chosen. */
  lemma {:induction false} FirstExactAppend(ds: seq<ConfigPythonDistribution>, d: ConfigPythonDistribution, target: string)
    requires d.buildTarget != target
    ensures FirstExactDistribution(ds + [d], target) == FirstExactDistribution(ds, target)
    decreases |ds|
  {
    if ds == [] {
    } else {
      assert (ds + [d])[1..] == ds[1..] + [d];
      FirstExactAppend(ds[1..], d, target);
    }
  }

  /** A packaging rule declared for another target changes neither the resolved rules nor
      which kinds of rule the target declares. */
  lemma OtherRuleIgnored(prior: seq<ConfigPythonPackaging>, rule: ConfigPythonPackaging, target: string)
    requires !Matches(rule.buildTarget, target)
    ensures ConvertRules(prior + [rule], target) == ConvertRules(prior, target)
    ensures DeclaresStdlib(prior + [rule], target) == DeclaresStdlib(prior, target)
    ensures DeclaresExtensionsPolicy(prior + [rule], target) == DeclaresExtensionsPolicy(prior, target)
  {
    var rules := prior + [rule];
    assert rules[..|prior|] == prior;
    assert ConvertRules(rules, target) == ConvertRules(prior, target);
    assert DeclaresStdlib(rules, target) == DeclaresStdlib(prior, target) by {
      if DeclaresStdlib(rules, target) {
        var i :| 0 <= i < |rules| && rules[i].Stdlib? && Matches(rules[i].buildTarget, target);
        assert rules[i] == prior[i];
      }
      if DeclaresStdlib(prior, target) {
        var i :| 0 <= i < |prior| && prior[i].Stdlib?
                 && Matches(prior[i].buildTarget, target);
        assert rules[i] == prior[i];
      }
    }
    assert DeclaresExtensionsPolicy(rules, target) == DeclaresExtensionsPolicy(prior, target) by {
      if DeclaresExtensionsPolicy(rules, target) {
        var i :| 0 <= i < |rules| && rules[i].StdlibExtensionsPolicy? && Matches(rules[i].buildTarget, target);
        assert rules[i] == prior[i];
      }
      if DeclaresExtensionsPolicy(prior, target) {
        var i :| 0 <= i < |prior| && prior[i].StdlibExtensionsPolicy?
                 && Matches(prior[i].buildTarget, target);
        assert rules[i] == prior[i];
      }
    }
  }

  /** A `[[build]]` entry for another target changes neither the name nor the build path. */
  lemma OtherBuildIgnored(builds: seq<ConfigBuild>, b: ConfigBuild, origin: string, target: string)
    requires !Matches(b.buildTarget, target)
    ensures BuildSettings(builds + [b], origin, target) == BuildSettings(builds, origin, target)
  {
    LastSetAppend(builds, b, BuildTargetOf, target, ApplicationNameOf);
    LastSetAppend(builds, b, BuildTargetOf, target, BuildPathOf);
  }

  /** An `[[embedded_python_config]]` entry for another target is neither checked nor applied. */
  lemma OtherInterpreterEntryIgnored(cfgs: seq<ConfigPython>, c: ConfigPython, target: string)
    requires !Matches(c.buildTarget, target)
    ensures InterpreterSettingsOf(cfgs + [c], target) == InterpreterSettingsOf(cfgs, target)
  {
    assert (cfgs + [c])[..|cfgs|] == cfgs;
  }

  /** An `[[embedded_python_run]]` entry for another target leaves the mode alone. */
  lemma OtherRunIgnored(runs: seq<ConfigRunMode>, run: ConfigRunMode, target: string)
    requires !Matches(run.buildTarget, target)
    ensures RunFor(runs + [run], target) == RunFor(runs, target)
  {
    LastSetAppend(runs, run, RunTargetOf, target, DeclaredRunMode);
  }

  /** A `[[distribution]]` entry for another target is not collected. */
  lemma OtherDistributionIgnored(ds: seq<ConfigDistribution>, d: ConfigDistribution, target: string)
    requires !Matches(d.buildTarget, target)
    ensures DistributionsFor(ds + [d], target) == DistributionsFor(ds, target)
  {
    assert (ds + [d])[..|ds|] == ds;
  }

  /** Resolution depends on the manifest only through the results of its steps. */
  lemma ResolveFromSteps(p: ParsedConfig, q: ParsedConfig, configPath: string, origin: string, target: string)
    requires BuildSettings(p.builds, origin, target) == BuildSettings(q.builds, origin, target)
    requires SelectPythonDistribution(p.pythonDistributions, target) == SelectPythonDistribution(q.pythonDistributions, target)
    requires InterpreterSettingsOf(p.pythonConfigs, target) == InterpreterSettingsOf(q.pythonConfigs, target)
    requires ConvertRules(p.packagingRules, target) == ConvertRules(q.packagingRules, target)
    requires DeclaresStdlib(p.packagingRules, target) == DeclaresStdlib(q.packagingRules, target)
    requires DeclaresExtensionsPolicy(p.packagingRules, target) == DeclaresExtensionsPolicy(q.packagingRules, target)
    requires RunFor(p.pythonRun, target) == RunFor(q.pythonRun, target)
    requires DistributionsFor(p.distributions, target) == DistributionsFor(q.distributions, target)
    ensures Resolve(p, configPath, origin, target) == Resolve(q, configPath, origin, target)
  {
  }

  /** Adding, at the end of each list, an entry declared for some other target changes
      nothing, provided a Python distribution was declared at all. */
  lemma OtherTargetIgnored(parsed: ParsedConfig, configPath: string, origin: string, target: string,
                           b: ConfigBuild, pd: ConfigPythonDistribution, c: ConfigPython,
                           rule: ConfigPythonPackaging, run: ConfigRunMode, d: ConfigDistribution)
    requires !Matches(b.buildTarget, target) && pd.buildTarget != target && !Matches(c.buildTarget, target)
    requires !Matches(rule.buildTarget, target) && !Matches(run.buildTarget, target) && !Matches(d.buildTarget, target)
    requires parsed.pythonDistributions != []
    ensures Resolve(ParsedConfig(parsed.builds + [b], parsed.pythonDistributions + [pd], parsed.pythonConfigs + [c],
                                 parsed.packagingRules + [rule], parsed.pythonRun + [run], parsed.distributions + [d]),
                    configPath, origin, target)
         == Resolve(parsed, configPath, origin, target)
  {
    var longer := ParsedConfig(parsed.builds + [b], parsed.pythonDistributions + [pd], parsed.pythonConfigs + [c],
                               parsed.packagingRules + [rule], parsed.pythonRun + [run], parsed.distributions + [d]);
    OtherBuildIgnored(parsed.builds, b, origin, target);
    FirstExactAppend(parsed.pythonDistributions, pd, target);
    OtherInterpreterEntryIgnored(parsed.pythonConfigs, c, target);
    OtherRuleIgnored(parsed.packagingRules, rule, target);
    OtherRunIgnored(parsed.pythonRun, run, target);
    OtherDistributionIgnored(parsed.distributions, d, target);
    ResolveFromSteps(longer, parsed, configPath, origin, target);
  }

  // ---------------------------------------------------------------------------------------
  // A small manifest

  /** One `[[build]]`, one Python distribution declared for `distTarget`, a `stdlib` and a
      `stdlib-extensions-policy` rule, every other entry for all targets. */
  function ExampleManifest(distTarget: string): ParsedConfig {
    ParsedConfig(
      [ConfigBuild("all", Some("myapp"), None)],
      [ConfigPythonDistribution.Url(distTarget, "https://example.com/cpython.tar.zst", "0123")],
      [],
      [ConfigPythonPackaging.Stdlib("all", 0, true, false, true, "embedded"),
       ConfigPythonPackaging.StdlibExtensionsPolicy("all", "all")],
      [],
      [])
  }

  /** Declaring the distribution for "all" does not make it a candidate for "linux". */
  lemma ExampleDistributionForAllFails()
    ensures Resolve(ExampleManifest("all"), "/work/pyoxidizer.toml", "/work", "linux")
         == Err(NoMatchingDistribution("linux"))
  {
    var m := ExampleManifest("all");
    assert Sets(m.builds[0], BuildTargetOf, "linux", ApplicationNameOf);
  }

  /** Declared for "linux", the same manifest resolves: both rules kept in order, the default
      build path, jemalloc and no run action. */
  lemma ExampleDistributionForTargetResolves()
    ensures var r := Resolve(ExampleManifest("linux"), "/work/pyoxidizer.toml", "/work", "linux");
      && r.Ok?
      && r.value.buildConfig == BuildConfig("myapp", "/work/build")
      && r.value.pythonPackaging
         == [PythonPackaging.Stdlib(0, true, false, true, Embedded), PythonPackaging.StdlibExtensionsPolicy("all")]
      && r.value.rawAllocator == Jemalloc
      && r.value.run == RunMode.Noop
  {
    var m := ExampleManifest("linux");
    assert m.builds[..0] == [];
    assert LastSet(m.builds, BuildTargetOf, "linux", ApplicationNameOf) == Some("myapp");
    assert LastSet(m.builds, BuildTargetOf, "linux", BuildPathOf).None?;
    assert JoinPath("/work", "build") == "/work/build";
    assert SelectPythonDistribution(m.pythonDistributions, "linux").Ok?;
    assert ResolveInstallLocation("embedded") == Ok(Embedded);
    assert ConvertRule(m.packagingRules[0], "linux") == Ok(Some(PythonPackaging.Stdlib(0, true, false, true, Embedded)));
    assert ConvertRule(m.packagingRules[1], "linux") == Ok(Some(PythonPackaging.StdlibExtensionsPolicy("all")));
    var first := [m.packagingRules[0]];
    assert first[..0] == [];
    assert [] + [PythonPackaging.Stdlib(0, true, false, true, Embedded)] == [PythonPackaging.Stdlib(0, true, false, true, Embedded)];
    assert ConvertRules(first, "linux") == Ok([PythonPackaging.Stdlib(0, true, false, true, Embedded)]);
    assert m.packagingRules[..|m.packagingRules| - 1] == first;
    assert [PythonPackaging.Stdlib(0, true, false, true, Embedded)] + [PythonPackaging.StdlibExtensionsPolicy("all")]
        == [PythonPackaging.Stdlib(0, true, false, true, Embedded), PythonPackaging.StdlibExtensionsPolicy("all")];
    assert ConvertRules(m.packagingRules, "linux")
        == Ok([PythonPackaging.Stdlib(0, true, false, true, Embedded), PythonPackaging.StdlibExtensionsPolicy("all")]);
    assert DeclaresStdlib(m.packagingRules, "linux") by { assert m.packagingRules[0].Stdlib?; }
    assert DeclaresExtensionsPolicy(m.packagingRules, "linux") by { assert m.packagingRules[1].StdlibExtensionsPolicy?; }
  }

  /** An encoding with no separator is rejected with an error naming it, where the source
      would index a missing second piece. */
  lemma StdioEncodingWithoutSeparatorRejected()
    ensures var c := ConfigPython("all", None, None, None, None, None, Some("utf-8"), None, None, None, None,
                                  None, None, None, None, None);
      InterpreterSettingsOf([c], "linux") == Err(InvalidStdioEncoding("utf-8"))
  {
    var c := ConfigPython("all", None, None, None, None, None, Some("utf-8"), None, None, None, None,
                          None, None, None, None, None);
    assert [c][..0] == [];
    assert EncodingSeparator !in "utf-8";
  }
}
