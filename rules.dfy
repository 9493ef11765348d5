/** The target-filtered rule lists of a manifest: `[[packaging_rule]]` entries converted to
    resolved packaging rules, the `[[embedded_python_run]]` mode, and `[[distribution]]`
    entries. */
module Rules {
  import opened Results
  import opened Strings
  import opened Layering
  import opened Manifest
  import opened Configuration

  // ---------------------------------------------------------------------------------------
  // Packaging rules

  /** An install location as the resolver reports it: the parser's message becomes the
      configuration error. */
  function Location(text: string): (r: Result<InstallLocation, ConfigError>)
    ensures r.Ok? <==> ResolveInstallLocation(text).Ok?
    ensures r.Ok? ==> InstallLocationText(r.value) == text
    ensures r.Err? ==> r.error == InvalidInstallLocation(ResolveInstallLocation(text).error)
  {
    match ResolveInstallLocation(text)
    case Ok(loc) => Ok(loc)
    case Err(message) => Err(InvalidInstallLocation(message))
  }

  /** The manifest entry, declared for `buildTarget`, that a resolved rule stands for: the
      same kind and data, with the install location written back as text. */
  function Declaration(p: PythonPackaging, buildTarget: string): ConfigPythonPackaging {
    match p
    case SetupPyInstall(path, env, args, level, src, loc) =>
      ConfigPythonPackaging.SetupPyInstall(buildTarget, path, env, args, level, src, InstallLocationText(loc))
    case StdlibExtensionsPolicy(policy) =>
      ConfigPythonPackaging.StdlibExtensionsPolicy(buildTarget, policy)
    case StdlibExtensionsExplicitIncludes(includes) =>
      ConfigPythonPackaging.StdlibExtensionsExplicitIncludes(buildTarget, includes)
    case StdlibExtensionsExplicitExcludes(excludes) =>
      ConfigPythonPackaging.StdlibExtensionsExplicitExcludes(buildTarget, excludes)
    case StdlibExtensionVariant(extension, variant) =>
      ConfigPythonPackaging.StdlibExtensionVariant(buildTarget, extension, variant)
    case Stdlib(level, noTests, src, resources, loc) =>
      ConfigPythonPackaging.Stdlib(buildTarget, level, noTests, src, resources, InstallLocationText(loc))
    case Virtualenv(path, level, excludes, src, loc) =>
      ConfigPythonPackaging.Virtualenv(buildTarget, path, level, excludes, src, InstallLocationText(loc))
    case PackageRoot(path, packages, level, excludes, src, loc) =>
      ConfigPythonPackaging.PackageRoot(buildTarget, path, packages, level, excludes, src, InstallLocationText(loc))
    case PipInstallSimple(package, level, excludes, src, loc, extra) =>
      ConfigPythonPackaging.PipInstallSimple(buildTarget, package, level, excludes, src, InstallLocationText(loc), extra)
    case PipRequirementsFile(path, level, src, loc) =>
      ConfigPythonPackaging.PipRequirementsFile(buildTarget, path, level, src, InstallLocationText(loc))
    case FilterInclude(files, globs) =>
      ConfigPythonPackaging.FilterInclude(buildTarget, files, globs)
    case WriteLicenseFiles(path) =>
      ConfigPythonPackaging.WriteLicenseFiles(buildTarget, path)
  }

  /** A rule that applies to the target but whose install location does not parse. */
  predicate InvalidRule(r: ConfigPythonPackaging, target: string) {
    Matches(r.buildTarget, target) && r.HasInstallLocation() && ResolveInstallLocation(r.installLocation).Err?
  }

  /** One `[[packaging_rule]]` entry: nothing when it is for another target, otherwise the
      resolved rule, unless its install location is rejected. A resolved rule keeps the
      entry's kind and all its data. */
  function ConvertRule(r: ConfigPythonPackaging, target: string): (res: Result<Option<PythonPackaging>, ConfigError>)
    ensures (res.Ok? && res.value.None?) <==> !Matches(r.buildTarget, target)
    ensures res.Err? <==> InvalidRule(r, target)
    ensures res.Err? ==> res.error == InvalidInstallLocation("invalid install_location: " + r.installLocation)
    ensures res.Ok? && res.value.Some? ==> Declaration(res.value.value, r.buildTarget) == r
    ensures res.Ok? && res.value.Some? ==>
              && (res.value.value.Stdlib? <==> r.Stdlib?)
              && (res.value.value.StdlibExtensionsPolicy? <==> r.StdlibExtensionsPolicy?)
    ensures res.Ok? && res.value.Some? ==> res.value.value.Tag() == r.Tag()
  {
    if !Matches(r.buildTarget, target) then Ok(None)
    else
      match r
      case SetupPyInstall(_, path, env, args, level, src, text) =>
        var loc :- Location(text);
        Ok(Some(PythonPackaging.SetupPyInstall(path, env, args, level, src, loc)))
      case StdlibExtensionsPolicy(_, policy) =>
        Ok(Some(PythonPackaging.StdlibExtensionsPolicy(policy)))
      case StdlibExtensionsExplicitIncludes(_, includes) =>
        Ok(Some(PythonPackaging.StdlibExtensionsExplicitIncludes(includes)))
      case StdlibExtensionsExplicitExcludes(_, excludes) =>
        Ok(Some(PythonPackaging.StdlibExtensionsExplicitExcludes(excludes)))
      case StdlibExtensionVariant(_, extension, variant) =>
        Ok(Some(PythonPackaging.StdlibExtensionVariant(extension, variant)))
      case Stdlib(_, level, noTests, src, resources, text) =>
        var loc :- Location(text);
        Ok(Some(PythonPackaging.Stdlib(level, noTests, src, resources, loc)))
      case Virtualenv(_, path, level, excludes, src, text) =>
        var loc :- Location(text);
        Ok(Some(PythonPackaging.Virtualenv(path, level, excludes, src, loc)))
      case PackageRoot(_, path, packages, level, excludes, src, text) =>
        var loc :- Location(text);
        Ok(Some(PythonPackaging.PackageRoot(path, packages, level, excludes, src, loc)))
      case PipInstallSimple(_, package, level, excludes, src, text, extra) =>
        var loc :- Location(text);
        Ok(Some(PythonPackaging.PipInstallSimple(package, level, excludes, src, loc, extra)))
      case PipRequirementsFile(_, path, level, src, text) =>
        var loc :- Location(text);
        Ok(Some(PythonPackaging.PipRequirementsFile(path, level, src, loc)))
      case FilterInclude(_, files, globs) =>
        Ok(Some(PythonPackaging.FilterInclude(files, globs)))
      case WriteLicenseFiles(_, path) =>
        Ok(Some(PythonPackaging.WriteLicenseFiles(path)))
  }

  /** Every resolved rule is what its declaration, for any applying target, resolves to. */
  lemma ConvertDeclaration(p: PythonPackaging, buildTarget: string, target: string)
    requires Matches(buildTarget, target)
    ensures ConvertRule(Declaration(p, buildTarget), target) == Ok(Some(p))
  {
    if p.HasInstallLocation() {
      ResolveInstallLocationText(p.installLocation);
    }
  }

  /** The resolved rules of the whole list in declaration order, or the error of the first
      applying entry that fails. */
  function ConvertRules(rules: seq<ConfigPythonPackaging>, target: string): Result<seq<PythonPackaging>, ConfigError>
    decreases |rules|
  {
    if rules == [] then Ok([])
    else
      var init :- ConvertRules(rules[..|rules| - 1], target);
      var last :- ConvertRule(rules[|rules| - 1], target);
      if last.Some? then Ok(init + [last.value]) else Ok(init)
  }

  /** The list converts exactly when no applying entry has a bad install location; entries for
      other targets are never parsed. */
  lemma {:induction false} ConvertRulesOk(rules: seq<ConfigPythonPackaging>, target: string)
    ensures ConvertRules(rules, target).Ok? <==> forall i :: 0 <= i < |rules| ==> !InvalidRule(rules[i], target)
    decreases |rules|
  {
    if rules != [] {
      var init := rules[..|rules| - 1];
      ConvertRulesOk(init, target);
      assert forall i :: 0 <= i < |init| ==> init[i] == rules[i];
    }
  }

  /** The reported error is that of the first applying entry with a bad install location. */
  lemma {:induction false} ConvertRulesFirstError(rules: seq<ConfigPythonPackaging>, target: string, i: nat)
    requires i < |rules| && InvalidRule(rules[i], target)
    requires forall j :: 0 <= j < i ==> !InvalidRule(rules[j], target)
    ensures ConvertRules(rules, target) == Err(InvalidInstallLocation("invalid install_location: " + rules[i].installLocation))
    decreases |rules|
  {
    var init := rules[..|rules| - 1];
    if i < |rules| - 1 {
      ConvertRulesFirstError(init, target, i);
    } else {
      ConvertRulesOk(init, target);
      assert forall j :: 0 <= j < |init| ==> init[j] == rules[j];
    }
  }

  /** A successful conversion resolves the applying entries one for one, in order. */
  lemma {:induction false} ConvertRulesApplying(rules: seq<ConfigPythonPackaging>, target: string)
    requires ConvertRules(rules, target).Ok?
    ensures |ConvertRules(rules, target).value| == |Applying(rules, RuleTargetOf, target)|
    ensures forall k :: 0 <= k < |ConvertRules(rules, target).value| ==>
              ConvertRule(Applying(rules, RuleTargetOf, target)[k], target) == Ok(Some(ConvertRules(rules, target).value[k]))
    decreases |rules|
  {
    if rules != [] {
      var init := rules[..|rules| - 1];
      ConvertRulesApplying(init, target);
    }
  }

  /** Some entry of the given kind applies to the target. */
  predicate DeclaresStdlib(rules: seq<ConfigPythonPackaging>, target: string) {
    exists i :: 0 <= i < |rules| && rules[i].Stdlib? && Matches(rules[i].buildTarget, target)
  }

  predicate DeclaresExtensionsPolicy(rules: seq<ConfigPythonPackaging>, target: string) {
    exists i :: 0 <= i < |rules| && rules[i].StdlibExtensionsPolicy? && Matches(rules[i].buildTarget, target)
  }

  /** After a successful conversion, an applying `stdlib` entry exists exactly when the
      resolved rules contain a `stdlib` rule. */
  lemma {:induction false} DeclaresStdlibResolved(rules: seq<ConfigPythonPackaging>, target: string)
    requires ConvertRules(rules, target).Ok?
    ensures DeclaresStdlib(rules, target)
        <==> exists k :: 0 <= k < |ConvertRules(rules, target).value| && ConvertRules(rules, target).value[k].Stdlib?
    decreases |rules|
  {
    if rules != [] {
      var n := |rules| - 1;
      var init := rules[..n];
      assert rules[..n + 1] == rules;
      ConvertRulesPrefix(rules, target, n);
      DeclaresPrefix(rules, target, n);
      DeclaresStdlibResolved(init, target);
      var prior := ConvertRules(init, target).value;
      var out := ConvertRules(rules, target).value;
      assert forall k :: 0 <= k < |prior| ==> out[k] == prior[k];
      if |out| > |prior| {
        assert out[|prior|] == ConvertRule(rules[n], target).value.value;
      }
    }
  }

  /** The same for `stdlib-extensions-policy`. */
  lemma {:induction false} DeclaresPolicyResolved(rules: seq<ConfigPythonPackaging>, target: string)
    requires ConvertRules(rules, target).Ok?
    ensures DeclaresExtensionsPolicy(rules, target)
        <==> exists k :: 0 <= k < |ConvertRules(rules, target).value|
                         && ConvertRules(rules, target).value[k].StdlibExtensionsPolicy?
    decreases |rules|
  {
    if rules != [] {
      var n := |rules| - 1;
      var init := rules[..n];
      assert rules[..n + 1] == rules;
      ConvertRulesPrefix(rules, target, n);
      DeclaresPrefix(rules, target, n);
      DeclaresPolicyResolved(init, target);
      var prior := ConvertRules(init, target).value;
      var out := ConvertRules(rules, target).value;
      assert forall k :: 0 <= k < |prior| ==> out[k] == prior[k];
      if |out| > |prior| {
        assert out[|prior|] == ConvertRule(rules[n], target).value.value;
      }
    }
  }

  /** The `[[packaging_rule]]` pass: each entry converted in order, stopping at the first
      error, while noting whether an applying `stdlib` and `stdlib-extensions-policy` entry
      was seen. */
  method CollectPackaging(rules: seq<ConfigPythonPackaging>, target: string)
    returns (r: Result<seq<PythonPackaging>, ConfigError>, haveStdlibExtensionsPolicy: bool, haveStdlib: bool)
    ensures r == ConvertRules(rules, target)
    ensures r.Ok? ==> haveStdlib == DeclaresStdlib(rules, target)
    ensures r.Ok? ==> haveStdlibExtensionsPolicy == DeclaresExtensionsPolicy(rules, target)
  {
    var packaging: seq<PythonPackaging> := [];
    haveStdlibExtensionsPolicy := false;
    haveStdlib := false;
    for i := 0 to |rules|
      invariant ConvertRules(rules[..i], target) == Ok(packaging)
      invariant haveStdlib == DeclaresStdlib(rules[..i], target)
      invariant haveStdlibExtensionsPolicy == DeclaresExtensionsPolicy(rules[..i], target)
    {
      var rule := rules[i];
      if Matches(rule.buildTarget, target) {
        if rule.Stdlib? {
          haveStdlib := true;
        }
        if rule.StdlibExtensionsPolicy? {
          haveStdlibExtensionsPolicy := true;
        }
      }
      DeclaresPrefix(rules, target, i);
      ConvertRulesPrefix(rules, target, i);
      var converted := ConvertRule(rule, target);
      if converted.Err? {
        ConvertRulesStays(rules, target, i + 1);
        r := Err(converted.error);
        return;
      }
      if converted.value.Some? {
        packaging := packaging + [converted.value.value];
      } else {
        assert packaging + [] == packaging;
      }
    }
    assert rules[..|rules|] == rules;
    r := Ok(packaging);
  }

  /** The conversion of the first `i + 1` entries extends that of the first `i`. */
  lemma ConvertRulesPrefix(rules: seq<ConfigPythonPackaging>, target: string, i: nat)
    requires i < |rules|
    ensures ConvertRules(rules[..i], target).Err? ==>
              ConvertRules(rules[..i + 1], target) == ConvertRules(rules[..i], target)
    ensures ConvertRules(rules[..i], target).Ok? && ConvertRule(rules[i], target).Err? ==>
              ConvertRules(rules[..i + 1], target) == Err(ConvertRule(rules[i], target).error)
    ensures ConvertRules(rules[..i], target).Ok? && ConvertRule(rules[i], target).Ok? ==>
              ConvertRules(rules[..i + 1], target)
              == Ok(ConvertRules(rules[..i], target).value
                    + (if ConvertRule(rules[i], target).value.Some? then [ConvertRule(rules[i], target).value.value] else []))
  {
    assert rules[..i + 1][..i] == rules[..i];
    assert rules[..i + 1][i] == rules[i];
    var prior := ConvertRules(rules[..i], target);
    if prior.Ok? && ConvertRule(rules[i], target).Ok? && ConvertRule(rules[i], target).value.None? {
      assert prior.value + [] == prior.value;
    }
  }

  /** The first `i + 1` entries declare a kind when the first `i` do or entry `i` does. */
  lemma DeclaresPrefix(rules: seq<ConfigPythonPackaging>, target: string, i: nat)
    requires i < |rules|
    ensures DeclaresStdlib(rules[..i + 1], target)
        <==> DeclaresStdlib(rules[..i], target) || (rules[i].Stdlib? && Matches(rules[i].buildTarget, target))
    ensures DeclaresExtensionsPolicy(rules[..i + 1], target)
        <==> DeclaresExtensionsPolicy(rules[..i], target)
             || (rules[i].StdlibExtensionsPolicy? && Matches(rules[i].buildTarget, target))
  {
    var next := rules[..i + 1];
    assert next[i] == rules[i];
    assert forall j :: 0 <= j < i ==> next[j] == rules[..i][j];
  }

  /** Once a prefix fails, the whole list fails with the same error. */
  lemma {:induction false} ConvertRulesStays(rules: seq<ConfigPythonPackaging>, target: string, k: nat)
    requires k <= |rules| && ConvertRules(rules[..k], target).Err?
    ensures ConvertRules(rules, target) == ConvertRules(rules[..k], target)
    decreases |rules|
  {
    if k < |rules| {
      var init := rules[..|rules| - 1];
      assert init[..k] == rules[..k];
      ConvertRulesStays(init, target, k);
    } else {
      assert rules[..k] == rules;
    }
  }

  // ---------------------------------------------------------------------------------------
  // Run mode

  /** The mode one `[[embedded_python_run]]` entry declares. */
  function RunModeOf(e: ConfigRunMode): RunMode {
    match e
    case Noop(_) => RunMode.Noop
    case Repl(_) => RunMode.Repl
    case Module(_, name) => RunMode.Module(name)
    case Eval(_, code) => RunMode.Eval(code)
  }

  /** Every entry declares a mode, so every applying entry sets it. */
  function DeclaredRunMode(e: ConfigRunMode): Option<RunMode> { Some(RunModeOf(e)) }

  /** The mode of the last applying entry, or `Noop` when none applies. */
  function RunFor(runs: seq<ConfigRunMode>, target: string): RunMode {
    LastSet(runs, RunTargetOf, target, DeclaredRunMode).GetOr(RunMode.Noop)
  }

  /** The `[[embedded_python_run]]` loop: each applying entry replaces the mode. */
  method ResolveRun(runs: seq<ConfigRunMode>, target: string) returns (run: RunMode)
    ensures run == RunFor(runs, target)
  {
    run := RunMode.Noop;
    for i := 0 to |runs|
      invariant run == RunFor(runs[..i], target)
    {
      assert runs[..i + 1][..i] == runs[..i];
      if Matches(runs[i].buildTarget, target) {
        run := RunModeOf(runs[i]);
      }
    }
    assert runs[..|runs|] == runs;
  }

  /** The mode is that of the last entry that applies to the target. */
  lemma RunIsLastApplying(runs: seq<ConfigRunMode>, target: string, i: nat)
    requires i < |runs| && Matches(runs[i].buildTarget, target)
    requires forall j :: i < j < |runs| ==> !Matches(runs[j].buildTarget, target)
    ensures RunFor(runs, target) == RunModeOf(runs[i])
  {
    LastSetIsLast(runs, i, RunTargetOf, target, DeclaredRunMode);
  }

  /** With no applying entry the interpreter does nothing. */
  lemma RunDefault(runs: seq<ConfigRunMode>, target: string)
    requires forall i :: 0 <= i < |runs| ==> !Matches(runs[i].buildTarget, target)
    ensures RunFor(runs, target) == RunMode.Noop
  {
    LastSetNone(runs, RunTargetOf, target, DeclaredRunMode);
  }

  // ---------------------------------------------------------------------------------------
  // Distributions

  /** One `[[distribution]]` entry, without its target. */
  function DistributionOf(d: ConfigDistribution): Distribution {
    match d
    case Tarball(_, prefix) => Distribution.Tarball(prefix)
    case WixInstaller(_, x86, amd64, bundle) => Distribution.WixInstaller(x86, amd64, bundle)
  }

  /** The entry, declared for `buildTarget`, that a resolved distribution stands for. */
  function DistributionDeclaration(d: Distribution, buildTarget: string): ConfigDistribution {
    match d
    case Tarball(prefix) => ConfigDistribution.Tarball(buildTarget, prefix)
    case WixInstaller(x86, amd64, bundle) => ConfigDistribution.WixInstaller(buildTarget, x86, amd64, bundle)
  }

  /** Resolving an entry loses only its target. */
  lemma DistributionRoundTrip(e: ConfigDistribution, d: Distribution, buildTarget: string)
    ensures DistributionDeclaration(DistributionOf(e), e.buildTarget) == e
    ensures DistributionOf(DistributionDeclaration(d, buildTarget)) == d
  {
  }

  /** The `[[distribution]]` pass: the applying entries, one for one and in declaration
      order, each resolved. */
  function DistributionsFor(ds: seq<ConfigDistribution>, target: string): (r: seq<Distribution>)
    ensures |r| == |Applying(ds, DistributionTargetOf, target)|
    ensures forall k :: 0 <= k < |r| ==> r[k] == DistributionOf(Applying(ds, DistributionTargetOf, target)[k])
    decreases |ds|
  {
    if ds == [] then []
    else
      var init := DistributionsFor(ds[..|ds| - 1], target);
      var last := ds[|ds| - 1];
      if Matches(last.buildTarget, target) then init + [DistributionOf(last)] else init
  }
}
